# Kaleidoscope scene model

This project models two Python scripts: `3D_kaleidoscopic.py` and
`kaleidoscope_3d_enhanced_1080p.py`. They draw a 3D kaleidoscope with pygame and OpenGL,
and have the same scene logic at different line numbers. The enhanced script runs at
1920 x 1080 instead of 800 x 800, wraps the main loop in a `try`, and draws an FPS
overlay.

Every frame, the scene shows:

- eight copies of one sector, rotated by 45 degrees each about Z;
- a pulsing core sphere;
- up to 50 sparkles that age, grow, shift hue and expire.

The pointer tunes `pulse_factor` and `rotate_speed`.

The model keeps the scripts' own form:

- `hsb_to_rgb` and `map_value` are functions.
- `draw_sector` is a set of methods with the scripts' loops, each proved equal to a function that lists what it draws.
- The globals are the fields of the class `Scene.Kaleidoscope`.
- `update_sparkles` is the method `Kaleidoscope.UpdateSparkles`, which may spawn a sparkle onto the global list. It then runs the loop `Scene.AgingPass` over a snapshot of the list. The loop removes an expired sparkle with the same remove-by-value as `list.remove` and grows a survivor in place. Both are proved equal to the functions `Sparkles.SparkleTick` and `Sparkles.Glints`.
- `Kaleidoscope.Frame` is one iteration of `main`'s loop: the pointer motions, then the frame step `Kaleidoscope.Tick`. The frame step advances the Y rotation, draws the sectors and the core, updates the sparkles and counts the frame.

Modelling conventions:

- Numbers are reals.
- Drawing a sphere or a triangle appends a `Primitives.Primitive` to the output list. Each primitive records the alpha of 0.7 and the rotations in force: the Y rotation in degrees and the sector's Z rotation.
- `math.sin`, `math.cos` and `noise.pnoise2` are supplied as the fields of a `Numerics` value.
- Each frame's `random.uniform` draws are a spawn candidate, passed in with the draws' ranges as a precondition.
- The window size is a constructor parameter, which covers both scripts.

Files:

| file | module | contents |
|---|---|---|
| `arith.dfy` | `RealArith` | two real-arithmetic lemmas |
| `color.dfy` | `Color` | `hsb_to_rgb` |
| `remap.dfy` | `Remap` | `map_value` |
| `primitives.dfy` | `Primitives` | what the renderer receives |
| `sector.dfy` | `Sector` | `draw_sector` and `draw_core` |
| `sparkles.dfy` | `Sparkles` | the sparkle list as values, and the life of one sparkle |
| `scene.dfy` | `Scene` | the global state and `main`'s loop |

Two behaviours of the code are worth stating plainly:

- **The pointer remaps are not clamped.** `map_value` does no clamping, so a pointer position outside the window maps outside the ranges [0.005, 0.02] and [0.8, 1.2]. See `Remap.MapValueUnclamped`.
- **A sparkle is removed on tick ceil(L).** A sparkle of lifetime L is removed on tick ceil(L), which differs from L when L is fractional. Since `random.uniform` gives fractional lifetimes, this is the usual case. See `Sparkles.SparkleSchedule`.

`rotate_speed` is set from the pointer but never read. The Y rotation always advances by 0.005 radians per frame.

## Model

| member | source | states |
|---|---|---|
| Color.Clamp01 | 3D_kaleidoscopic.py:43 | the clamped value is in [0, 1], equals the input when it was already there, is 0 for any input at or below 0, and is 1 for any input at or above 1 |
| Color.Mod360 | 3D_kaleidoscopic.py:42 | the reduced hue is in [0, 360) for every real input |
| Color.Mod360IsFloored | 3D_kaleidoscopic.py:42 | the reduction is Python's floored remainder `h - 360 * floor(h / 360)`, negative inputs included |
| Color.Mod360InRange | 3D_kaleidoscopic.py:42 | a hue already in [0, 360) is left unchanged |
| Color.Mod360Period | 3D_kaleidoscopic.py:42 | adding a full turn does not change the reduced hue |
| Color.SectorIndex | 3D_kaleidoscopic.py:46-47 | the sector index is one of 0 .. 5 and brackets h / 60 from below |
| Color.SectorIndexIsFloor | 3D_kaleidoscopic.py:46-47 | the sector index is exactly `math.floor(h / 60)` |
| Color.Fraction | 3D_kaleidoscopic.py:48 | the position inside the sector is in [0, 1) and, with the index, rebuilds the hue |
| Color.Fade | 3D_kaleidoscopic.py:49-51 | `b * (1 - x)` lies between 0 and b |
| Color.FadeAntitone | 3D_kaleidoscopic.py:49-51 | a larger factor never gives a brighter channel, so p <= q and p <= t |
| Color.Wheel | 3D_kaleidoscopic.py:46-63 | the six-sector selection yields channels in [0, 1] |
| Color.HsbToRgb | 3D_kaleidoscopic.py:40-63 | every channel is in [0, 1] for every input, out-of-range saturation and brightness included |
| Color.Achromatic | 3D_kaleidoscopic.py:43-45 | a clamped saturation of 0 gives the grey of the clamped brightness, whatever the hue |
| Color.HuePeriodic | 3D_kaleidoscopic.py:42 | hues a full turn apart give the same colour |
| Color.WheelExtremes | 3D_kaleidoscopic.py:49-63 | in every sector one channel is b, one is p, and every channel lies between p and b |
| Color.ChromaticExtremes | 3D_kaleidoscopic.py:40-63 | with a positive clamped saturation the largest channel is the clamped brightness and the smallest is b(1 - s) |
| Color.Primaries | kaleidoscope_3d_enhanced_1080p.py:42-64 | at full saturation and brightness, hues 0, 120 and 240 give pure red, green and blue |
| Primitives.Shade | 3D_kaleidoscopic.py:70 | a colour with channels in [0, 1] is emitted as a valid shade: channels in [0, 1] and alpha 0.7 |
| Primitives.PlaceAppend | 3D_kaleidoscopic.py:182-186 | drawing two lists one after the other under the same rotations is drawing their concatenation |
| Remap.MapValue | 3D_kaleidoscopic.py:199-200 | the ends of the input range land exactly on the ends of the output range |
| Remap.MapValueMonotone | 3D_kaleidoscopic.py:199-200 | over an increasing input range onto a non-decreasing output range the remap never decreases |
| Remap.MapValueUnclamped | 3D_kaleidoscopic.py:199-200 | inputs beyond either end map beyond that end of the output range: nothing is clamped |
| Remap.MapValueInverse | kaleidoscope_3d_enhanced_1080p.py:219-220 | remapping back with the two ranges swapped recovers the input |
| Sector.WheelHue | 3D_kaleidoscopic.py:89 | every integer hue `(frame * rate + k * spacing) % 360` lies in [0, 360) |
| Sector.RadialTriangleShape | 3D_kaleidoscopic.py:86-96 | each radial triangle has its first vertex at the origin and its third at 0.9 times its second, in a valid shade |
| Sector.Bezier | 3D_kaleidoscopic.py:114-118 | the cubic curve passes through the first control point at t = 0 and the last at t = 1 |
| Sector.VinesLayout | 3D_kaleidoscopic.py:99-121 | the vines emit 20 spheres each, sphere n of vine m at index 20m + n |
| Sector.SectorSpec | 3D_kaleidoscopic.py:83-132 | one sector emits exactly 149 primitives |
| Sector.SectorLayout | 3D_kaleidoscopic.py:83-132 | a sector is 4 triangles, then 120 vine spheres of radius 0.05, then 25 ellipse spheres, all in valid shades |
| Sector.ChainPoints | 3D_kaleidoscopic.py:104-119 | the sampling loop produces the 21 curve points at t = 0, 0.05, .., 1, from (0.5 + 0.2m, 0, 0) to (2.0 + 0.2m, 0, 0) |
| Sector.DrawVine | 3D_kaleidoscopic.py:99-121 | a vine's spheres are the first 20 of its 21 samples in its own colour, so the end point is never drawn |
| Sector.DrawSector | kaleidoscope_3d_enhanced_1080p.py:82-131 | the three loops emit exactly the sector's primitive list |
| Sector.CoreAtStart | 3D_kaleidoscopic.py:134-139 | at frame 0 the core is a 20 x 20 sphere of radius 0.5 at the origin with colour (1, 0.2, 0.2), whatever the pulse |
| Sector.CoreRadiusBounds | 3D_kaleidoscopic.py:136 | the core radius stays within 0.2 * pulse_factor of 0.5 |
| Sparkles.RemoveFirst | 3D_kaleidoscopic.py:155 | `list.remove` is only called with a value that is present, as Python raises ValueError otherwise, and it drops exactly one element |
| Sparkles.RemoveFirstOneCopy | 3D_kaleidoscopic.py:155 | removal takes out one copy of the value and keeps every other element |
| Sparkles.RemoveFirstAt | 3D_kaleidoscopic.py:155 | when position i holds the first copy of the value, removal by value is removal at position i |
| Sparkles.AgedPositive | 3D_kaleidoscopic.py:153-154 | every sparkle left by the aging pass has a positive lifetime |
| Sparkles.AgedSpec | 3D_kaleidoscopic.py:152-160 | the pass keeps exactly the sparkles whose decremented lifetime is positive, in order, each one older by 1, 2% larger and one degree further round the wheel, and draws each at its pre-growth size and hue |
| Sparkles.AgedAppend | 3D_kaleidoscopic.py:152-160 | the pass over a joined list is the joined passes, both for the list and for what is drawn |
| Sparkles.AgedSingle | 3D_kaleidoscopic.py:152-160 | the pass over one sparkle drops it or advances it and draws it |
| Sparkles.AgedStep | 3D_kaleidoscopic.py:152-160 | visiting one more sparkle of the snapshot extends the pass by that sparkle's step |
| Sparkles.VisitAt | 3D_kaleidoscopic.py:152-153 | during the loop the visited sparkle sits right after the survivors so far, and its decrement happens there |
| Sparkles.VisitDrop | 3D_kaleidoscopic.py:154-155 | removing an expired sparkle by value removes it at its own position and advances the pass |
| Sparkles.VisitKeep | 3D_kaleidoscopic.py:156-160 | growing a survivor in place advances the pass and draws one sphere |
| Sparkles.SpawnOne | 3D_kaleidoscopic.py:143-151 | exactly one sparkle, the new one, is appended iff fewer than 50 are present |
| Sparkles.TickPreservesLive | 3D_kaleidoscopic.py:141-160 | a tick keeps at most 50 sparkles, each inside the spawn box with positive lifetime, size at least 0.05 and hue in [0, 360) |
| Sparkles.RunWithinCap | 3D_kaleidoscopic.py:143 | after any number of ticks there are never more than 50 sparkles |
| Sparkles.RunFromEmpty | 3D_kaleidoscopic.py:141-160 | from an empty list, candidates that outlive the run are never removed, so n ticks leave n sparkles |
| Sparkles.FirstTicksNoExpiry | 3D_kaleidoscopic.py:149 | since every lifetime is at least 30, the first 29 ticks from empty remove nothing |
| Sparkles.Lifecycle | 3D_kaleidoscopic.py:152-155 | a sparkle of lifetime L survives n passes iff n < L, having lost exactly n of its lifetime and kept its position |
| Sparkles.SparkleSchedule | 3D_kaleidoscopic.py:152-158 | a sparkle spawned on tick 1 is drawn on ticks 1 .. ceil(L) - 1, removed undrawn on tick ceil(L), and never drawn again |
| Sparkles.RunKeepsPlace | 3D_kaleidoscopic.py:143-160 | in a running population, a sparkle spawned by the first tick stays after what is left of the earlier sparkles, with every later spawn appended after it; after n ticks at most n - 1 sparkles follow it |
| Sparkles.RunDraws | 3D_kaleidoscopic.py:152-158 | what tick n draws is the earlier sparkles' spheres, then that sparkle's, then the spheres of at most n - 1 later spawns |
| Sparkles.RunSchedule | 3D_kaleidoscopic.py:152-158 | inside a running population that sparkle's sphere is among tick n's draws exactly while n < ceil(L) |
| Scene.SectorsLayout | 3D_kaleidoscopic.py:182-186 | the sector copies are identical lists, copy i under a Z rotation of 45i degrees |
| Scene.FrameLayout | 3D_kaleidoscopic.py:178-191 | a frame is 8 x 149 sector primitives, then the core, then one sphere per surviving sparkle, all under the frame's Y rotation |
| Scene.TuningRanges | 3D_kaleidoscopic.py:170-172 | a pointer inside the window keeps rotate_speed in [0.005, 0.02] and pulse_factor in [0.8, 1.2], hitting the ends at the window edges |
| Scene.DrawSectors | 3D_kaleidoscopic.py:182-186 | the sector loop draws the 8 rotated copies in order |
| Scene.Kaleidoscope.constructor | 3D_kaleidoscopic.py:33-38 | the globals start at rotate_speed 0.01, pulse_factor 1.0, frame 0, no Y rotation and no sparkles |
| Scene.Kaleidoscope.PointerMoved | 3D_kaleidoscopic.py:170-172 | a pointer motion sets both tuning scalars from the pointer's x and y |
| Scene.Kaleidoscope.HandleMotions | 3D_kaleidoscopic.py:166-172 | after a frame's motions the last one decides both scalars, and with none they are unchanged |
| Scene.AgingPass | 3D_kaleidoscopic.py:152-160 | the loop over the copy, with in-place decrement, remove-by-value and in-place growth, leaves the list the aging pass describes and draws exactly its spheres |
| Scene.Kaleidoscope.UpdateSparkles | kaleidoscope_3d_enhanced_1080p.py:140-159 | spawn then the aging loop: the global list becomes one tick of the sparkle functions, it draws exactly their spheres, and the state invariant (at most 50 live sparkles) is kept |
| Scene.Kaleidoscope.Tick | 3D_kaleidoscopic.py:174-197 | one frame advances y_rotation by 0.005 and frame_count by 1, ticks the sparkles, and draws the frame the frame functions describe |
| Scene.TuningAppend | 3D_kaleidoscopic.py:166-172 | motions delivered in two batches tune both scalars as the joined batch does |
| Scene.Kaleidoscope.Frame | 3D_kaleidoscopic.py:165-197 | one iteration of the main loop: the tuning scalars follow the frame's last motion, the counters advance, the sparkles tick, and the draws are the frame the frame functions describe |
| Scene.Kaleidoscope.Animate | kaleidoscope_3d_enhanced_1080p.py:180-217 | n frames advance the frame count by n and the Y rotation by 0.005n, leave the sparkles after n ticks of candidates (never more than 50), and leave both tuning scalars as the last pointer motion of the whole run set them, or unchanged if there was none |
| Sector.RadialTriangle | 3D_kaleidoscopic.py:86-96 | definition of radial line k; its shape is stated by `Sector.RadialTriangleShape` and its place in the sector by `Sector.SectorLayout` |
| Sector.RadialLines | 3D_kaleidoscopic.py:86-96 | definition of the four radial lines in order of k; `Sector.SectorLayout` states they are the sector's first four primitives, each a triangle in a valid shade |
| Sector.VineControls | 3D_kaleidoscopic.py:106-113 | definition of the four control points of vine m; the fixed ends are stated by `Sector.ChainPoints` |
| Sector.Blend | 3D_kaleidoscopic.py:114-118 | definition of the cubic blend; its end values are stated by `Sector.Bezier` |
| Sector.SampleT | 3D_kaleidoscopic.py:105-106 | definition of the curve parameter of sample n; `Sector.ChainPoints` states the 21 samples from t = 0 to t = 1 |
| Sector.VineColor | 3D_kaleidoscopic.py:101-103 | definition of vine m's colour, hue `(frame * 4 + m * 60) % 360` at saturation 0.8 and brightness 1, shared by all of the vine's spheres; `Sector.SectorLayout` states it is a valid shade |
| Sector.VineSphere | 3D_kaleidoscopic.py:121 | definition of sphere n of vine m, a 10 x 10 sphere of radius 0.05 at sample n; `Sector.DrawVine` and `Sector.SectorLayout` state its place, radius and shade |
| Sector.Vine | 3D_kaleidoscopic.py:120-121 | definition of one vine's spheres; `Sector.DrawVine` states they are the first 20 of its 21 samples, the end point left out |
| Sector.Vines | 3D_kaleidoscopic.py:99-121 | definition of the first vines one after another; `Sector.VinesLayout` states 20 spheres per vine, sphere n of vine m at index 20m + n |
| Sector.EllipseSphere | 3D_kaleidoscopic.py:124-132 | definition of ellipse j; its place and shade are stated by `Sector.SectorLayout` |
| Sector.Ellipses | 3D_kaleidoscopic.py:124-132 | definition of the 25 ellipse spheres in order of j; `Sector.SectorLayout` states they are the sector's last 25 primitives, in valid shades |
| Sector.CoreSphere | 3D_kaleidoscopic.py:134-139 | definition of `draw_core`; its properties are stated by `Sector.CoreAtStart` and `Sector.CoreRadiusBounds` |
| Sparkles.Spawned | 3D_kaleidoscopic.py:143-151 | definition of the spawn step; stated by `Sparkles.SpawnOne` |
| Sparkles.Decremented | 3D_kaleidoscopic.py:153 | definition of the lifetime decrement; its effect is stated by `Sparkles.AgedSpec` and `Sparkles.Lifecycle` |
| Sparkles.Expires | 3D_kaleidoscopic.py:154 | definition of the expiry test; `Sparkles.AgedSpec` states that exactly the expiring sparkles are dropped |
| Sparkles.Grown | 3D_kaleidoscopic.py:159-160 | definition of the growth and hue step; `Sparkles.TickPreservesLive` states it keeps the hue in [0, 360) and the size at least 0.05 |
| Sparkles.Advance | 3D_kaleidoscopic.py:153-160 | definition of a survivor's step; stated by `Sparkles.AgedSpec` |
| Sparkles.Glint | 3D_kaleidoscopic.py:157-158 | definition of a sparkle's sphere; `Sparkles.AgedSpec` states it is drawn at the pre-growth size and hue |
| Sparkles.Aged | 3D_kaleidoscopic.py:152-160 | definition of the aging pass; stated by `Sparkles.AgedSpec`, `Sparkles.AgedAppend` and `Scene.AgingPass` |
| Sparkles.Glints | 3D_kaleidoscopic.py:152-158 | definition of what the pass draws; stated by `Sparkles.AgedSpec` and `Scene.AgingPass` |
| Sparkles.SparkleTick | 3D_kaleidoscopic.py:141-160 | definition of one sparkle tick; stated by `Sparkles.TickPreservesLive` and `Scene.Kaleidoscope.UpdateSparkles` |
| Sparkles.SpawnRanges | 3D_kaleidoscopic.py:145-150 | the ranges `random.uniform` draws a new sparkle from: x, y in [-5, 5], z in [-1, 1], size in [0.05, 0.2], lifetime in [30, 60], hue in [0, 360], both ends included; `Sparkles.TickPreservesLive` states a tick keeps every sparkle live given a candidate in them |
| Sparkles.Run | 3D_kaleidoscopic.py:191 | definition of successive ticks; stated by `Sparkles.RunWithinCap`, `Sparkles.RunKeepsPlace` and `Scene.Kaleidoscope.Animate` |
| Scene.Degrees | 3D_kaleidoscopic.py:179 | definition of the radian-to-degree factor 57.2958 applied to `y_rotation` |
| Scene.Sectors | 3D_kaleidoscopic.py:182-186 | definition of the 8 rotated sector copies; stated by `Scene.SectorsLayout` and `Scene.DrawSectors` |
| Scene.FrameDraws | 3D_kaleidoscopic.py:174-193 | definition of a frame's draws; stated by `Scene.FrameLayout` and `Scene.Kaleidoscope.Tick` |
| Scene.SpeedAfter | 3D_kaleidoscopic.py:170-171 | definition of `rotate_speed` after a series of motions; stated by `Scene.TuningAppend` and `Scene.Kaleidoscope.HandleMotions` |
| Scene.PulseAfter | 3D_kaleidoscopic.py:170-172 | definition of `pulse_factor` after a series of motions; stated by `Scene.TuningAppend` and `Scene.Kaleidoscope.HandleMotions` |

## Left out

- pygame initialisation, waiting for events, `clock.tick(60)` and `display.flip`: these are I/O and frame pacing. A run is a finite sequence of per-frame inputs, and the end of the inputs stands for the QUIT event.
- The OpenGL and GLU calls and the matrix stack: a drawing call becomes a primitive tagged with the Y and Z rotations in force, and no transform is computed.
- `set_perspective` and its `glFrustum` fallback (kaleidoscope_3d_enhanced_1080p.py:16-25): these are one-off renderer set-up.
- `draw_fps` (kaleidoscope_3d_enhanced_1080p.py:161-178) and the main loop's `try`/`except`, which prints and quits: these are UI and error reporting around the same step.
- The definitions of `math.sin`, `math.cos` and `noise.pnoise2`: they are parameters. Only the facts a lemma states in its precondition are assumed, for example sin(0) = 0 in `Sector.CoreAtStart`.
- The state of `random`: each frame's six draws arrive as a candidate sparkle inside the closed ranges `uniform` documents. A candidate is passed even when the list is full, since the script draws nothing then and the candidate is ignored.
- IEEE floating-point rounding and the float types: every quantity is a real, and `* 1.02`, `/ 60` and `% 360` are exact.
- Remap.MapValue: requires distinct input ends, because the script raises ZeroDivisionError there. The script only calls it with a window size, which is positive.
- Sparkles as mutable dicts shared between the list and its copy: the model keeps the snapshot and the live list as values. Since only the visited sparkle is changed, this gives the same contents.
- Scene.AgingPass works on a local list, and `Kaleidoscope.UpdateSparkles` assigns the global sparkles field once, after the loop. The script mutates the global list at every step. Nothing reads the list in between, so the final contents and order are the same.
- Scene.Kaleidoscope.Animate: states the whole state after the run (counters, sparkles and both tuning scalars) but not every frame's draws. `Scene.Kaleidoscope.Frame` states those for one frame.
