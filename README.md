# flanetary, modelled in Dafny

flanetary is a small 2D planet simulator. Each frame of its main loop does three things:

- It resolves collisions between touching planets with an elastic impulse.
- It applies Newtonian gravity between every ordered pair of planets.
- It moves every planet by its velocity.

A build file (`build.txt`) can override some constants in `settings.py`. This project models those parts and proves properties of them:

- `planets.dfy` (module `Planets`, planet.py):
  - `Body` holds the fields of a planet at one moment.
  - `Planet` is the class whose fields the simulation updates in place. It has a constructor and `Update`.
  - `blackHole` is the black-hole flag that the collision test reads.
- `utils.dfy` (module `Utils`, utils.py): `distance`, `check_collision`, `clamp` and `normalize_vector`.
  - `math.hypot` is a parameter.
  - The lemmas that need it to be the Euclidean norm require `IsHypot`.
- `physics.dfy` (module `Physics`, physics.py):
  - `calculate_gravity` is a function.
  - `apply_gravity` and `resolve_collision` are methods on two `Planet` objects.
  - Each method is proved equal to a function on the planets' values: `Gravitated` and `Resolved`.
  - The laws are proved about those functions: momentum and energy conservation, reversal of the normal speed, widening of the gap, and the doubled kick of the two gravity loops.
- `simulation.dfy` (module `Simulation`, main.py:31-46): one tick on a list of `Planet` objects.
  - The tick is nested `for` loops, as in main.py.
  - It is proved equal to a function on the planets' values, `Ticked`.
  - The lemmas about `Ticked` cover:
    - momentum conservation through the whole tick;
    - energy conservation through the collision pass;
    - the fields each pass keeps;
    - the case of planets that do not touch;
    - two-planet worked cases.
- `parse.dfy` (module `Parse`, parse.py):
  - `parse_build_file`'s loop over the build file's lines is a method, proved equal to the fold `Parsed`.
  - `update_settings_file`'s loop over the lines of settings.py is a method, proved equal to `Rewritten`.
  - Files are sequences of lines.
  - `eval`, `float()`, `int()` and `str()` of a float are the fields of a `Conversions` value. Each parser returns `None` where the Python call raises. For the color, `None` stands for `eval` raising; an `eval` result whose `str` raises is left out (see `Parse.Convert` under "## Left out").

Numbers are exact reals. `G` and `TIME_STEP` are parameters `g` and `timeStep`. physics.py:3 imports `G` from settings, but settings.py:1-14 does not define it, so a `g =` line of the build file is parsed but never written back: settings.py has no line that starts with "G =" (see `Parse.RewriteAddsNoKey`). The hard-wired constants of physics.py are constants of the model: restitution 1 and the overlap factor 1.1.

The model follows the code as written:

- There is no black-hole absorption, no black-hole immobility and no configurable restitution.
- The radius is stored, not derived from the mass.
- Each planet is pushed back by twice the widened overlap.
- The impulse is applied even when the planets already move apart: the closing `impact_speed > 0` test comes after the update.

planet.py has no black-hole attribute, while utils.py reads one. The model adds it as a field whose constructor argument defaults to "not a black hole".

## Model

| member | source | states |
|---|---|---|
| Planets.Planet.constructor | planet.py:4-11 | The new planet has the given position, radius, color and mass, and velocity (0, 0). |
| Planets.Body.Moved | planet.py:16-18 | One update displaces the planet by exactly its velocity; every other field is kept. |
| Planets.Planet.Update | planet.py:16-18 | x and y grow by vx and vy; the new state is `Moved` of the old one. |
| Utils.Distance | utils.py:3-5 | The distance is non-negative, its square is dx² + dy², and it is zero exactly when the two positions coincide. |
| Utils.DistanceSymmetric | utils.py:3-5 | distance(p1, p2) == distance(p2, p1). |
| Utils.CheckCollision | utils.py:7-19 | For two planets, or two black holes, a collision is reported exactly when the distance is at most the sum of the radii. |
| Utils.BlackHoleCollision | utils.py:9-16 | A planet and a black hole collide exactly when the distance is at most the planet's radius plus a third of the hole's, in either argument order. |
| Utils.CheckCollisionSymmetric | utils.py:7-19 | The collision test does not depend on the order of its arguments. |
| Utils.CollisionWithinRadiusSum | utils.py:7-19 | With non-negative radii, every reported collision also passes the plain radius-sum test. |
| Utils.Clamp | utils.py:22-24 | For min <= max the result lies in [min, max]; it is the value itself when that is already inside; it is always one of value, min and max. |
| Utils.ClampIdempotent | utils.py:22-24 | Clamping twice is clamping once. |
| Utils.NormalizeVector | utils.py:26-31 | Definition of normalize_vector: (0, 0) for zero magnitude, otherwise each component divided by `hypot`. Its properties are the three lemmas below. |
| Utils.NormalizeVectorZero | utils.py:26-31 | The result is (0, 0) exactly for the zero vector. |
| Utils.NormalizeVectorUnit | utils.py:26-31 | For a non-zero vector the result has length 1 and times hypot(dx, dy) gives back (dx, dy). |
| Utils.NormalizeVectorNegated | utils.py:26-31 | normalize(-dx, -dy) is minus normalize(dx, dy). |
| Physics.ForceMagnitude | physics.py:20 | Definition of G * (m1 * m2) / d^2. Its properties are in GravityLaw. |
| Physics.CalculateGravity | physics.py:11-26 | Planets at the same position exert no force. |
| Physics.GravityLaw | physics.py:11-26 | Otherwise the force has length G m1 m2 / d², is parallel to the vector from p1 to p2, and points towards p2 when G m1 m2 > 0. |
| Physics.GravityAntisymmetric | physics.py:11-26 | The force on p2 from p1 is minus the force on p1 from p2. |
| Physics.GravityDependsOnPositions | physics.py:11-26 | The force depends only on the positions and masses, not on the velocities. |
| Physics.Kicked | physics.py:33-36 | apply_gravity changes nothing but the two velocities. |
| Physics.Gravitated | physics.py:29-36 | apply_gravity on values: the kick by the force calculate_gravity gives. Only the two velocities change. |
| Physics.KickedConservesMomentum | physics.py:29-36 | Equal and opposite kicks, for any force, keep the total momentum in each component. |
| Physics.GravityBothWays | physics.py:29-36 | Applying gravity as (p1, p2) and then as (p2, p1) gives each planet twice the kick of one call. |
| Physics.ApplyGravity | physics.py:29-36 | The planets end in the state that `Gravitated` gives for their old states, also when p1 and p2 are the same object. |
| Physics.ApplyForce | physics.py:33-36 | p1 gains f/m1·t and p2 loses f/m2·t in velocity. |
| Physics.Overlap | physics.py:59 | Definition of the separation distance: (r1 + r2 - d) * 1.1. |
| Physics.KineticEnergy | physics.py:54-55 | Definition of 0.5 * m * (vx^2 + vy^2), in simulation mass units. physics.py:74-75 compute the same. |
| Physics.Separated | physics.py:62-66 | The separation changes only positions, and keeps the sum of the two positions. |
| Physics.SeparatedDisplacement | physics.py:59-66 | Each planet moves by 2·overlap along the normal, in opposite directions, a distance of 2·overlap for a unit normal. |
| Physics.ResolvedWidensGap | physics.py:58-66 | For overlapping planets the distance grows from d to d + 4·overlap, so it never shrinks, and grows strictly while the discs overlap. |
| Physics.SeparatedKeepsMotion | physics.py:62-76 | The separation keeps velocities, normal speed, momentum and kinetic energy, so the "after" energies are the "before" ones. |
| Physics.Impulse | physics.py:82 | Definition of the restitution-1 impulse -(1 + 1) * s / (1/m1 + 1/m2). |
| Physics.Bounced | physics.py:78-86 | The impulse step changes nothing but the two velocities. |
| Physics.BouncedConservesMomentum | physics.py:78-86 | The impulse keeps the total momentum. |
| Physics.BouncedReversesNormalSpeed | physics.py:68-86 | The restitution-1 impulse along a unit normal reverses the relative normal velocity. |
| Physics.BouncedConservesEnergy | physics.py:78-86 | The restitution-1 impulse along a unit normal keeps the total kinetic energy. |
| Physics.Resolved | physics.py:46-96 | Coincident planets are left alone; otherwise only positions and velocities change, and the sum of the positions is kept. |
| Physics.ResolvedConservesMomentum | physics.py:46-96 | resolve_collision keeps the total momentum. |
| Physics.ResolvedReversesImpactSpeed | physics.py:68-96 | For distinct positions the relative velocity along the normal becomes its negative. This holds for either sign of the impact speed, because the trailing `impact_speed > 0` test comes after the update. |
| Physics.ResolvedConservesEnergy | physics.py:46-96 | For distinct positions resolve_collision keeps the total kinetic energy. |
| Physics.ResolveCollision | physics.py:46-96 | The planets end in the state that `Resolved` gives. The logged "before" and "after" energies are equal. |
| Physics.Separate | physics.py:62-66 | The fields end as `Separated` gives. |
| Physics.Bounce | physics.py:68-96 | The fields end as `Bounced` gives, and the "after" energies are those of the planets before the impulse. |
| Physics.Push | physics.py:83-86 | p1 gains and p2 loses impulse·n / m in velocity. |
| Simulation.CollidePair | main.py:34-36 | One inner-loop step keeps the number of planets and their positive masses. |
| Simulation.CollisionRow | main.py:33-36 | The first j steps of the inner collision loop for row i. They keep the number of planets and their positive masses. |
| Simulation.CollisionRows | main.py:32-36 | The first i rows of the collision loop. They keep the number of planets and their positive masses. |
| Simulation.CollisionPass | main.py:31-36 | The whole collision pass. It keeps the number of planets and their positive masses. |
| Simulation.GravitatePair | main.py:41-42 | One inner gravity step: apply_gravity on planets i and j when i != j. It keeps the number of planets and their positive masses. |
| Simulation.GravityRow | main.py:40-42 | The first j steps of the inner gravity loop for row i. They keep the number of planets and their positive masses. |
| Simulation.GravityRows | main.py:39-42 | The first i rows of the gravity loop. They keep the number of planets and their positive masses. |
| Simulation.GravityPass | main.py:38-42 | The whole gravity pass. It keeps the number of planets and their positive masses. |
| Simulation.CollisionPassConservesMomentum | main.py:32-36 | The collision pass keeps the total momentum of all planets. |
| Simulation.CollisionPassConservesEnergy | main.py:32-36 | The collision pass keeps the total kinetic energy of all planets. |
| Simulation.CollisionPassKeepsPlanets | main.py:32-36 | Every planet keeps its mass, radius, color and black-hole flag, in list order. |
| Simulation.CollisionPassApart | main.py:32-36 | When no two planets touch, the collision pass changes nothing. |
| Simulation.CollisionPassOfTwo | main.py:32-36 | For two planets the pair is resolved exactly once if it touches, and left alone otherwise. |
| Simulation.GravityPassConservesMomentum | main.py:39-42 | The gravity pass keeps the total momentum. |
| Simulation.GravityPassKeepsPositions | main.py:39-42 | The gravity pass changes only velocities. |
| Simulation.GravityPassOfTwo | main.py:39-42 | For two planets each receives twice the kick of one apply_gravity call. |
| Simulation.UpdatePass | main.py:45-46 | Every planet is moved by its own velocity. |
| Simulation.Ticked | main.py:31-46 | One tick on values: the collision pass, then the gravity pass, then the update pass. The number of planets is kept. |
| Simulation.UpdatePassConserves | main.py:45-46 | Moving keeps total momentum and kinetic energy. |
| Simulation.TickConservesMomentum | main.py:31-46 | A whole tick keeps the total momentum. |
| Simulation.TickKeepsPlanets | main.py:31-46 | A tick never adds or removes a planet, and each keeps its mass, radius, color and flag. |
| Simulation.CollidePlanets | main.py:34-36 | One inner collision step on the objects matches `CollidePair`. |
| Simulation.CollisionRowPhase | main.py:33-36 | The inner collision loop matches `CollisionRow`. |
| Simulation.CollisionPhase | main.py:32-36 | The collision loops match `CollisionPass`. |
| Simulation.GravitatePlanets | main.py:41-42 | One inner gravity step on the objects matches `GravitatePair`. |
| Simulation.GravityRowPhase | main.py:40-42 | The inner gravity loop matches `GravityRow`. |
| Simulation.GravityPhase | main.py:39-42 | The gravity loops match `GravityPass`. |
| Simulation.UpdatePhase | main.py:45-46 | The update loop matches `UpdatePass`. |
| Simulation.Tick | main.py:31-46 | The three passes on the objects match `Ticked`. |
| Parse.StripSpec | parse.py:25 | strip() yields a slice with only white space cut off at either end and no white space at its ends. |
| Parse.Strip | parse.py:25 | Definition of `str.strip()`: TrimStart, then TrimEnd. Its properties are StripSpec and StripIdempotent. |
| Parse.AfterFirstEquals | parse.py:31 | Definition of `split("=", 1)[1]`: the text after the first '='. Its property is `AfterFirstEqualsSpec`. |
| Parse.AfterFirstEqualsSpec | parse.py:31 | When the first '=' is at index n, the text after it is everything after index n. |
| Parse.Prefix | parse.py:29-57 | Definition of the build-file prefix of each key, as `color =`, `tstep =`, `g =`, `log =` and `rgb =`. |
| Parse.Directive | parse.py:29-62 | The key of the first prefix in the elif chain that the line starts with. The prefix of the key it returns starts the line. |
| Parse.LineSetting | parse.py:24-62 | Definition of the setting one line makes, if any. Its properties are IgnoredLine and LineSettingByPrefix. |
| Parse.ParseLine | parse.py:24-62 | Definition of one loop iteration: the map, updated by the line's setting if it makes one. |
| Parse.Parsed | parse.py:24-62 | Definition of the fold of ParseLine over the lines, from an empty map. Its properties are ParsedHasKey, ParsedLastValidWins, ParsedKeys and ParsedWithoutIdleLine. |
| Parse.StripIdempotent | parse.py:25 | Stripping twice is stripping once. |
| Parse.IgnoredLine | parse.py:24-27 | A line that is empty after stripping, or starts with '#', sets nothing. |
| Parse.DirectiveByPrefix | parse.py:29-62 | A line is dispatched to key k exactly when it starts with k's prefix; the five prefixes exclude each other. |
| Parse.ValueTextAfterPrefix | parse.py:29-62 | The value text is the rest of the line after the prefix, stripped. |
| Parse.Convert | parse.py:31-59 | Definition of the conversion of each key: `eval` for color, `float` for tstep and g, `bool(int(...))` for log and rgb. Each gives None where the conversion raises. |
| Parse.ToggleValue | parse.py:50-62 | For log and rgb, 0 gives False, any other integer True, and non-integer text is rejected. |
| Parse.LineSettingByPrefix | parse.py:24-62 | A line sets k to v exactly when it starts with k's prefix and the rest converts to v. |
| Parse.ParsedHasKey | parse.py:24-62 | A key is in the parsed map exactly when some line sets it. |
| Parse.ParsedLastValidWins | parse.py:24-62 | The last line that sets a key gives its value. Later lines with a bad value leave it alone. |
| Parse.ParsedKeys | parse.py:29-62 | Every parsed key comes from a line with that key's prefix. |
| Parse.ParsedWithoutIdleLine | parse.py:24-27 | Removing a line that sets nothing, such as a blank line or a comment, from anywhere leaves the parsed map unchanged. |
| Parse.ParseBuildFile | parse.py:12-68 | A missing build file gives no map and no rewrite. Otherwise the loop builds `Parsed` of the lines, and settings.py is rewritten with it. |
| Parse.Marker | parse.py:79-87 | Definition of the settings.py marker of each key, as `COLOR`, `TIME_STEP`, `G =`, `LOG_TOGGLE` and `RGB_TOGGLE`. |
| Parse.Show | parse.py:80-88 | Definition of the f-string text of a value. |
| Parse.SettingLine | parse.py:80-88 | Definition of the line written for a key: its name, " = ", the value and a newline. |
| Parse.Replaces | parse.py:79-90 | The first branch of the elif chain that applies. A key it returns is in the map, and the line starts with that key's marker. |
| Parse.RewriteLine | parse.py:79-90 | Definition of one loop iteration: the setting line of the key `Replaces` returns, or the line unchanged. |
| Parse.ReplacesByMarker | parse.py:77-90 | A settings line is replaced for key k exactly when the raw line starts with k's marker and k is in the map. |
| Parse.RewriteLineCases | parse.py:77-90 | A line with the marker of a key in the map becomes `KEY = value` and a newline; every other line is copied unchanged. |
| Parse.Rewritten | parse.py:77-90 | The rewrite has exactly one output line per input line, in order. |
| Parse.UpdateSettingsFile | parse.py:70-95 | The rewrite loop writes exactly `Rewritten` of the lines. |
| Parse.RewriteEmptyMap | parse.py:77-90 | An empty map leaves settings.py unchanged. |
| Parse.RewriteIdempotent | parse.py:77-90 | Rewriting the written strings again with the same map changes nothing. Under RewriteKeepsLines's conditions, these strings are the lines of the next read. |
| Parse.RewriteKeepsLines | parse.py:74-90 | Suppose the lines of settings.py have the shape `readlines()` returns (`ReadLines`): each is non-empty, has no '\r', and has '\n' only as its last character, and every line but the last ends in '\n'. Suppose also that no shown value contains '\n' or '\r'. Then the written strings have that shape too. That is the shape for which reading the file back in universal-newline mode returns the same strings; `readlines()` itself is not modelled. |
| Parse.ShownLineBreakSplitsLine | parse.py:79-80 | A colour whose text contains '\n' or '\r' is written as more than one line. |
| Parse.RewriteAddsNoKey | parse.py:77-90 | A key whose marker starts no line of settings.py starts no written line either, so nothing is appended. |

## Left out

- Rendering is not modelled: the pygame window, the event loop, frame pacing, the timer text and `Planet.draw` (main.py:1-29, 48-61; planet.py:13-14). These are user interface.
- Console output is not modelled: the prints (main.py:35; physics.py:39-43, 89-93) and all logging in parse.py.
- File access is not modelled (parse.py:14-22, 73-76). File contents come in as sequences of lines. A missing build file is `None`.
- The exception handlers around file access (parse.py:67-68, 94-95) are not modelled, because no I/O happens in the model.
- Python evaluation and number syntax are parameters: `eval`, `float()`, `int()` and `str()` of a float. The model does not know which texts they accept or what text `str` produces.
- Floating point is modelled as exact real arithmetic, with no rounding. `math.hypot` is any function with the laws in `IsHypot`.
- settings.py is not part of this model. `G` and `TIME_STEP` are parameters; the screen size, `FPS` and `SCALE` are not used by the core.
- `MASS_UNIT` and `KE_CONVERSION` are dropped. Kinetic energies are in simulation mass units, and they are ghost outputs that are only logged.
- Physics.ApplyGravity: requires non-zero masses (`GravityDefined`). With a zero mass the Python code raises ZeroDivisionError, which the model does not represent.
- Physics.ResolveCollision: requires non-zero masses and 1/m1 + 1/m2 != 0 (`ImpulseDefined`), but only for planets at distinct positions. For those the Python code would raise ZeroDivisionError at the impulse; for coincident planets it returns before any division, and the model admits any masses there too.
- Physics.ApplyGravity and Physics.ResolveCollision: require `IsHypot`. With that law, a planet paired with itself is at distance zero, so it feels no force and is not resolved.
- Simulation.Tick: requires positive masses (`Massive`), which is stronger than the Python code needs. It also requires that no `Planet` object appears twice in the list (`Distinct`). Aliased list entries are not modelled.
- Simulation.Tick: main.py's `planets` list is a `seq<Planet>` that the tick never resizes. Nothing is appended or removed, as in the code.
- The gravity pass does not keep kinetic energy, and the model does not claim it does. Only the collision and update passes are proved to keep it.
- Parse.RewriteIdempotent: the written strings are taken to be the next run's lines. `Parse.RewriteKeepsLines` proves this holds when the lines of settings.py have the shape `readlines()` returns (`ReadLines`) and no shown value contains '\n' or '\r'. Otherwise `readlines()` splits a written string in two (`Parse.ShownLineBreakSplitsLine`), and a second run can write a different file.
- Parse.Convert: treats a color whose `eval` succeeds but whose `str` raises as if `eval` had raised, giving `None`. Python instead stores the object in `new_settings['COLOR']` at parse.py:31 before the log line at parse.py:32 raises, and the handler at parse.py:33-34 catches it. `update_settings_file` then opens settings.py for writing (parse.py:76) and raises when it formats the COLOR line (parse.py:80). The handler at parse.py:94-95 catches that, and settings.py is left cut off before its COLOR line. The model does not represent values whose text cannot be produced, or a rewrite cut short. So for such input `Parse.ParsedHasKey`, `Parse.ParsedLastValidWins` and `Parse.ParseBuildFile` describe the model, not Python.
- Parse.Strip: white space is the set of characters for which Python's `str.isspace()` holds, written out as a fixed list.
