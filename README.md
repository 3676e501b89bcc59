# Diamond ray tracer: control logic and spectral model

This project is a Dafny model of the host-side logic of a GPU diamond ray
tracer, together with proofs about it. The program loads a diamond mesh
through Assimp and converts it into the vertex and triangle buffers that a
compute shader reads. It frames the mesh in the X/Z plane, then runs a
render loop. Each tick of that loop dispatches one accumulation pass, up to
a budget of 1000 frames. The loop saves a vertically flipped PPM screenshot
on every 100th frame up to the budget, and then on every idle frame once
the budget is spent. SPACE cycles the four render modes and R restarts the
accumulation. A header of spectral helpers supplies:

- a wavelength-to-RGB mapping;
- a Sellmeier index of refraction for diamond;
- a dispersion value;
- `mix` and `clamp`;
- the table of sample wavelengths.

The model has these modules:

- `Spectral` (`spectral.dfy`) covers `include/spectral.h`:
  - pure functions over exact `real`;
  - the square root is a parameter, constrained by `IsSqrt`.
- `Capture` (`capture.dfy`) covers the capture condition and the
  `diamond_<mode>_%04d.ppm` file name, with `%04d` written out as decimal
  digits and zero padding.
- `Screenshot` (`screenshot.dfy`) covers the in-place row flip of
  `saveScreenshot`:
  - a method with nested loops over an `array<byte>`;
  - proved against the value-level function `Flipped`.
- `MeshLoader` (`mesh_loader.dfy`) covers the conversion and framing part
  of `loadOBJ_Assimp`:
  - a `Scene` class whose `Load` method has the loader's three loops;
  - it is proved against the functions `ConvertVertices`, `KeepTriangles`,
    `XZBounds` and `FramingOf`.
- `RenderLoop` (`render_loop.dfy`) covers the key callback, one tick of the
  main loop and whole runs:
  - functions (`OnKey`, `Ticked`, `Run`) state what should happen;
  - the `Renderer` class holds the two globals `gCurrentMode` and
    `gFrameIndex`, and its methods are proved to follow those functions;
  - `Session` chains loading and the loop.
- `Wrappers` (`wrappers.dfy`) holds `Option`.
- `Reals` (`reals.dfy`) holds the real `std::min`, `std::max` and
  `std::abs` that both the loader and the spectral header use.

The calls into OpenGL, GLFW and Assimp are not modelled, and nothing here
is executed. The model treats them as follows:

- A compute dispatch appears in a tick's output as a `Dispatch` record. It
  holds the frame index, the mode, the work-group counts, and the scene
  figures the shader receives as uniforms.
- A screenshot appears as the file name it would be written to.
- The Assimp import is an `ImportResult` value that the caller passes in.

The code has these edge behaviours, and the model keeps them:

- A mesh without vertices is not an error. The bounds stay at ±1e30 and the
  radius is -1.05e30 (`EmptyFraming`).
- There is no fallback radius when every vertex shares one X/Z point. The
  radius is then exactly 0 (`DegenerateFraming`).
- The intensity multiplier is 0.3 at 380 nm but 9/170 (about 0.053) at
  780 nm. It jumps at 420 nm and at 700 nm (`IntensityTaper`; see Findings).
- `getDiamondDispersion` evaluates to about 0.0256, while its comment at
  include/spectral.h:115 says about 0.044 (see Findings).

## Model

| member | source | states |
|---|---|---|
| Spectral.VisibleWavelengthsTable | include/spectral.h:7-15 | the table has `NUM_VISIBLE_WAVELENGTHS` = 11 entries, runs from `MIN_WAVELENGTH` 380 to `MAX_WAVELENGTH` 780 in steps of 40, and is strictly increasing |
| Spectral.ClampedSquared | include/spectral.h:30-31 | the value passed to the square root is at least 1; it equals the Sellmeier n² when that is at least 1, and is 1 otherwise |
| Spectral.DiamondIorSellmeier | include/spectral.h:20-32 | for any wavelength away from the two poles, the index is at least 1 and its square is the clamped Sellmeier n² |
| Spectral.DiamondIor | include/spectral.h:91-93 | `getDiamondIOR` is at least 1 and agrees with the Sellmeier form |
| Spectral.SellmeierDecreasing | include/spectral.h:30 | above the 175 nm pole, n² is strictly decreasing in the wavelength and exceeds 1, so the clamp does not act there |
| Spectral.DispersionSymmetry | include/spectral.h:107-111 | the dispersion of a wavelength with itself is 0, and swapping the two wavelengths negates it |
| Spectral.NormalDispersion | include/spectral.h:107-111 | when the "blue" wavelength is shorter than the "red" one (both above 175 nm), the dispersion is positive |
| Spectral.DiamondDispersion | include/spectral.h:114-116 | `getDiamondDispersion` is the dispersion between 656.3 nm and 486.1 nm, and it is positive |
| Spectral.DiamondDispersionValue | include/spectral.h:114-116 | that value lies in [0.0255, 0.0257], outside [0.043, 0.045] |
| Spectral.DiamondDispersionBG | include/spectral.h:114-116 | the corrected anchor: the dispersion between 686.7 nm and 430.8 nm, which is positive |
| Spectral.DiamondDispersionBGValue | include/spectral.h:114-116 | the corrected anchor lies in [0.043, 0.045] |
| Spectral.BandThresholds | include/spectral.h:42-77 | each wavelength selects exactly one of the seven branches, and each branch holds exactly when the wavelength lies in its interval bounded by 420/490/575/585/620/750 |
| Spectral.BaseColorChannels | include/spectral.h:42-77 | on [380, 780] the green and blue channels lie in [0, 1] and red in (-0.4, 1]; green is 0 exactly at or below 420 and from 750 up; blue is 0 exactly from 575 up; red is 1 exactly from 620 up, because of the `min(r, 1)` cap |
| Spectral.VioletRedGoesNegative | include/spectral.h:42-46 | the violet branch is unclamped: red is 0.3 at 380; it is negative exactly above 380 + 120/7 nm; and its formula gives -0.4 at 420 |
| Spectral.BandBoundaries | include/spectral.h:47-77 | adjacent branches meet continuously at 490, 575, 585, 620 and 750; the violet and violet-blue branches do not meet at 420 |
| Spectral.IntensityTaper | include/spectral.h:80-83 | the intensity is exactly 1 on [420, 700], 0.3 at 380 and 9/170 at 780; it tapers below 1 on both edge intervals; it jumps at both edges of [420, 700], staying below 79/170 for every wavelength under 420 and below 65/170 for every wavelength over 700 |
| Spectral.EdgeFadeContinuous | include/spectral.h:79-83 | the corrected taper `EdgeFade` is 0.3 at 380 and at 780 and 1 on [420, 700]; it rises on the violet edge and falls on the red edge; between any two visible wavelengths it changes by at most 0.0175 per nm, so it has no jump |
| Spectral.WavelengthToRgbUntapered | include/spectral.h:85 | on [420, 700] the result is the branch colour itself, e.g. (0, 1, 5/17) at 550 nm |
| Spectral.WavelengthToRgbEdges | include/spectral.h:37-86 | the result is (0.09, 0, 0.3) at 380 nm and (9/170, 0, 0) at 780 nm, the branch colour times the intensity |
| Spectral.SellmeierSquared | include/spectral.h:21-30 | the unclamped n² of line 30, defined away from the two poles; `ClampedSquared` and `SellmeierDecreasing` state what it is |
| Spectral.DispersionValue | include/spectral.h:107-111 | blue index minus red index; `DispersionSymmetry` proves it vanishes on equal arguments and is antisymmetric, and `NormalDispersion` proves it is positive when blue is shorter than red |
| Spectral.BandOf | include/spectral.h:42-77 | the branch the if-chain takes; `BandThresholds` proves each branch is taken exactly on its interval |
| Spectral.BandColor | include/spectral.h:42-77 | the channel formulas of each branch; `BaseColorChannels`, `VioletRedGoesNegative` and `BandBoundaries` state their ranges, zeros and continuity |
| Spectral.Intensity | include/spectral.h:80-83 | the edge taper as written; `IntensityTaper` gives its values, ranges and jumps |
| Spectral.WavelengthToRgb | include/spectral.h:37-86 | the branch colour times the intensity; `WavelengthToRgbUntapered` and `WavelengthToRgbEdges` give it inside [420, 700] and at both edges |
| Spectral.Mix | include/spectral.h:96-98 | `mix(a, b, 0)` is `a`, `mix(a, b, 1)` is `b`, and for t in [0, 1] the result lies between `a` and `b` |
| Spectral.Clamp | include/spectral.h:101-103 | for `min <= max` the result lies in [min, max]; an input already inside is returned unchanged; an input below gives `min` and one above gives `max`; when `max < min` the result is `min` |
| Capture.ShouldCapture | src/main.cpp:395 | the capture test; `ShouldCaptureMultiples` proves it holds exactly at the positive multiples of 100 |
| Capture.Decimal | src/main.cpp:400 | the decimal rendering is non-empty, all digits, and has no leading zero from 10 up; `DecimalRoundTrip` proves it reads back as n |
| Capture.Pad4 | src/main.cpp:400 | the `%04d` rendering has at least 4 characters, all digits; `Pad4RoundTrip` and `Pad4Shape` give its value and exact length |
| Capture.CaptureFilename | src/main.cpp:399-400 | `diamond_` + mode name + `_` + `%04d` counter + `.ppm`; `CaptureFilenameFits` bounds its length and `CaptureFilenameInjective` proves distinct pairs give distinct names |
| Capture.ShouldCaptureMultiples | src/main.cpp:395 | capture fires at every positive multiple of 100, only at multiples of 100, and never at 0 |
| Capture.ShouldCaptureExamples | src/main.cpp:395 | no capture at 0, 99 or 150; capture at 100, 200 and 1000 |
| Capture.DecimalRoundTrip | src/main.cpp:400 | reading back the decimal digits of n gives n |
| Capture.Pad4RoundTrip | src/main.cpp:400 | the `%04d` rendering reads back as the counter, so no two counters share a rendering |
| Capture.Pad4Shape | src/main.cpp:400 | the `%04d` rendering of a counter below 10000 has exactly 4 characters, and from 1000 up it is the plain decimal rendering |
| Capture.Pad4Examples | src/main.cpp:400 | `%04d` renders 0, 400 and 1000 as "0000", "0400" and "1000" |
| Capture.CaptureFilenameFire | src/main.cpp:399-400 | mode 3 at counter 400 gives "diamond_fire_0400.ppm" |
| Capture.CaptureFilenameBrilliance | src/main.cpp:399-400 | mode 0 at counter 1000 gives "diamond_brilliance_1000.ppm" |
| Capture.CaptureFilenameFits | src/main.cpp:398-400 | for any mode and any 32-bit counter the name has fewer than 64 characters, so `snprintf` into the 64-byte buffer never truncates |
| Capture.CaptureFilenameInjective | src/main.cpp:399-400 | distinct (mode, counter) pairs give distinct file names |
| Screenshot.Flipped | src/main.cpp:24-30 | the flipped buffer has the length of the original; `FlippedAt`, `FlippedRow` and `RowsDetermineFlip` prove it is the row mirror, and `FlipInvolutive` that it undoes itself |
| Screenshot.FlippedAt | src/main.cpp:24-30 | after the flip, byte (row r, column c) is the original byte (row h-1-r, column c) |
| Screenshot.FlippedRow | src/main.cpp:24-30 | row r of the flipped buffer is row h-1-r of the original |
| Screenshot.FlipInvolutive | src/main.cpp:24-30 | flipping twice gives back the original buffer |
| Screenshot.MiddleRowFixed | src/main.cpp:24 | for an odd height the middle row is left as it was |
| Screenshot.RowsDetermineFlip | src/main.cpp:24-30 | a buffer whose every row r is original row h-1-r is the flipped buffer |
| Screenshot.SwapRanges | src/main.cpp:27-29 | the inner loop swaps bytes `top + j` and `bot + j` for every j below the row length and leaves every other byte alone |
| Screenshot.FlipRows | src/main.cpp:21-30 | the nested loops turn the `3*width*height` buffer, in place, into its vertical flip, and the buffer length is unchanged |
| MeshLoader.ToVertex | src/main.cpp:176-190 | the vertex built from one mesh vertex; `ConvertVertices` states each of its fields |
| MeshLoader.TriangleOf | src/main.cpp:197-201 | the triangle built from a 3-index face; `KeepTrianglesSingle` and `KeepTrianglesMembers` state its indices and `w = 0` |
| MeshLoader.KeepTriangles | src/main.cpp:194-203 | the face filter; `KeepTrianglesAppend`, `KeepTrianglesSingle`, `KeepTrianglesMembers`, `KeepTrianglesLength` and `KeepAllTriangles` prove it keeps exactly the 3-index faces, in order |
| MeshLoader.Include | src/main.cpp:208-211 | one step of the bounds pass only widens the bounds, and afterwards they contain the vertex |
| MeshLoader.XZBounds | src/main.cpp:205-212 | the running min/max from ±1e30; `BoundsEnclose` and `BoundsAttained` prove every vertex lies inside and each bound is attained |
| MeshLoader.FramingOf | src/main.cpp:214-218 | midpoint centre and `1.05 × max(rX, rZ)` radius; `FramingEncloses`, `EmptyFraming`, `DegenerateFraming` and `FramingExample` state what it gives |
| MeshLoader.ConvertVertices | src/main.cpp:175-191 | one vertex per mesh vertex, in order; the position is copied with `pw = 1`; the normal is copied with `nw = 0`, or is (0, 0, 1) when the mesh has no normals |
| MeshLoader.KeepTrianglesAppend | src/main.cpp:194-203 | face filtering distributes over concatenation, so it preserves the order of the faces |
| MeshLoader.KeepTrianglesSingle | src/main.cpp:196-202 | a face with 3 indices becomes one triangle with those indices; any other face is dropped |
| MeshLoader.KeepTrianglesMembers | src/main.cpp:194-203 | a triangle is kept exactly when some face has 3 indices that give it, and every kept triangle has `w = 0` |
| MeshLoader.KeepTrianglesLength | src/main.cpp:194-203 | filtering never produces more triangles than there are faces |
| MeshLoader.KeepAllTriangles | src/main.cpp:194-203 | when every face has 3 indices, every face is kept, at its own position |
| MeshLoader.BoundsEnclose | src/main.cpp:205-212 | every vertex's `px` lies in [minX, maxX] and its `pz` in [minZ, maxZ], and for a non-empty list each minimum is at most its maximum |
| MeshLoader.BoundsAttained | src/main.cpp:205-212 | for a non-empty list with coordinates within ±1e30, each bound is the coordinate of some vertex |
| MeshLoader.FramingEncloses | src/main.cpp:214-218 | the centre is the midpoint of the bounds and the radius, `1.05 × max(rX, rZ)`, is non-negative and covers 1.05 times every vertex's X and Z distance from the centre |
| MeshLoader.EmptyFraming | src/main.cpp:205-218 | with no vertices the bounds stay at their ±1e30 starting values, giving centre (0, 0) and radius -1.05e30 |
| MeshLoader.DegenerateFraming | src/main.cpp:205-218 | when every vertex sits on one X/Z point, the centre is that point and the radius is 0 |
| MeshLoader.FramingExample | src/main.cpp:205-218 | the vertices (-1, -2), (1, -2) and (0, 2) in X/Z give centre (0, 0) and radius 2.1 |
| MeshLoader.Scene.constructor | src/main.cpp:45-47 | the globals start with no geometry, centre (0, 0) and radius 1 |
| MeshLoader.Scene.Load | src/main.cpp:153-218 | the load succeeds exactly when the import does and yields at least one mesh; on failure nothing changes; on success the first mesh's vertices, its triangle faces and its framing are stored |
| RenderLoop.OnKey | src/main.cpp:228-243 | one key event keeps a valid state valid, and either changes nothing or sets the counter to 0; `SpaceAdvances`, `ResetKeepsMode` and `OtherKeysIgnored` give each case exactly |
| RenderLoop.OnKeys | src/main.cpp:228-243 | the events polled in one frame, handled in order; `OnKeysValid` and `FourSpacesCycle` state what they do |
| RenderLoop.Ticked | src/main.cpp:360-407 | one tick after the events; `TickDispatch` and `TickCapture` give its dispatch, counter, capture and display value |
| RenderLoop.Step | src/main.cpp:358-407 | poll the events, then tick; `Run` chains it over frames, and `IdleFrame` gives it once the budget is spent |
| RenderLoop.Dispatches | src/main.cpp:363-386 | the number of dispatching frames is at most the number of frames; `DispatchesAppend`, `AccumulateDispatches` and `IdleDispatches` count it |
| RenderLoop.CRem | src/main.cpp:230 | C's truncating `%`: the result lies in [0, n) for a non-negative operand and in (-n, 0] for a negative one |
| RenderLoop.SpaceAdvances | src/main.cpp:229-231 | SPACE sets the mode to `(m + 1) % 4`, which wraps 3 to 0, and sets the counter to 0; the state stays valid |
| RenderLoop.FourSpacesCycle | src/main.cpp:229-231 | four SPACE presses return to the starting mode, with the counter at 0 |
| RenderLoop.ResetKeepsMode | src/main.cpp:239-241 | R sets the counter to 0 and leaves the mode alone |
| RenderLoop.OtherKeysIgnored | src/main.cpp:228-243 | any other key, and any action other than a press, changes nothing |
| RenderLoop.OnKeysValid | src/main.cpp:228-243 | any sequence of key events keeps the mode in 0..3, so `modeNames[gCurrentMode]` stays in bounds, and keeps the counter within the budget |
| RenderLoop.WorkGroups | src/main.cpp:381-382 | `(dim + 7) / 8` is the ceiling of dim/8: the groups cover dim, and one group fewer would not |
| RenderLoop.WindowWorkGroups | src/main.cpp:381-382 | the 1280×720 window takes 160×90 groups, which tile it exactly |
| RenderLoop.DisplayIndex | src/main.cpp:407 | the display uniform is at least 1 and equals the counter once the counter is positive |
| RenderLoop.TickDispatch | src/main.cpp:360-387 | a tick dispatches exactly when the counter is below 1000; it passes the counter before the increment and the current mode, then increments; otherwise it leaves the state alone |
| RenderLoop.TickCapture | src/main.cpp:395-407 | a tick captures exactly when the new counter is at least 100 and a multiple of 100, into the file named by the mode and that counter, and displays the new counter, or 1 in place of 0 |
| RenderLoop.Run | src/main.cpp:357-413 | any run keeps the state valid and gives one output per frame |
| RenderLoop.CounterBounded | src/main.cpp:355-387 | the counter never exceeds 1000 and the mode stays in 0..3 |
| RenderLoop.AccumulateCounter | src/main.cpp:355-387 | from counter 0, n ≤ 1000 quiet frames leave the counter at n |
| RenderLoop.AccumulateDispatches | src/main.cpp:355-387 | from counter 0, n ≤ 1000 quiet frames make exactly n dispatches, with frame indices 0, 1, …, n-1 in order and the current mode |
| RenderLoop.AccumulateCaptures | src/main.cpp:395-407 | from counter 0, frame i of a quiet run captures exactly when i+1 is a positive multiple of 100, and displays i+1 |
| RenderLoop.IdleFrame | src/main.cpp:360-401 | once the budget is spent, a quiet frame dispatches nothing, keeps the state, and captures again |
| RenderLoop.IdleRun | src/main.cpp:357-413 | once the budget is spent, every later quiet frame repeats that idle output and the state stays the same |
| RenderLoop.IdleDispatches | src/main.cpp:363 | idle frames make no dispatches |
| RenderLoop.RunAppend | src/main.cpp:357-413 | running two frame sequences one after the other is the run of their concatenation |
| RenderLoop.DispatchesAppend | src/main.cpp:363-383 | dispatch counts add up over concatenated outputs |
| RenderLoop.FullBudget | src/main.cpp:355-387 | from counter 0, 1000 + k quiet frames end at counter 1000 with exactly 1000 dispatches |
| RenderLoop.Renderer.constructor | src/main.cpp:44-48 | the globals start at mode 0 and counter 0 |
| RenderLoop.Renderer.HandleKey | src/main.cpp:228-243 | the key callback updates the two globals as `OnKey` says |
| RenderLoop.Renderer.Tick | src/main.cpp:360-407 | one pass of the loop body updates the counter and produces the dispatch, capture and display index that `Ticked` gives |
| RenderLoop.Renderer.RunLoop | src/main.cpp:357-413 | the loop, one frame after another with its key events handled before each tick, produces the outputs and final state of `Run` |
| RenderLoop.Session | src/main.cpp:281-286 | a failed load ends the session before any frame; otherwise the frames run from mode 0 and counter 0 over the loaded mesh's counts and framing |

## Left out

- All OpenGL, GLFW and GLAD calls are left out. This covers context and
  window setup, textures, buffers, uniform locations, draws and buffer
  swaps. They are I/O on foreign libraries. A dispatch is modelled only as
  the record of what it is given.
- `glMemoryBarrier` and the ordering of GPU work are left out. Their point
  is concurrency, which a sequential model does not have.
- Shader loading, compiling and linking (src/main.cpp:54-139) are left out.
  So are the failure exits of `main` other than the mesh load. They are file
  I/O and GL calls.
- The Assimp import itself is left out: reading the file, the
  post-processing flags, and the scene-incomplete check
  (src/main.cpp:154-168). It is a foreign library, so `Scene.Load` takes its
  result as an `ImportResult`. `Scene.Load` requires a well-formed first
  mesh: normals, when present, are one per vertex. Assimp guarantees that,
  and the code relies on it.
- `glReadPixels`, `glfwGetFramebufferSize` and the PPM header and file
  writes of `saveScreenshot` are left out as I/O. Only the row flip over
  the byte buffer is modelled, with the width and height taken as
  parameters.
- The console and window-title output is left out: the `printf`s, the
  `%.1f` progress figure and the title text. This is I/O with no effect on
  the state.
- Floating point is left out: the model uses exact `real` arithmetic. So
  `float` rounding, the `1e30f` conversion and infinities at the Sellmeier
  poles are not modelled. The Sellmeier functions require the wavelength
  to be away from the two poles (`SellmeierDefined`).
- `std::sqrt` is a parameter constrained by `IsSqrt` (non-negative, and
  squares back to its argument on non-negative inputs). Dafny has no
  square root on `real`.
- Integer widths are left out, as unbounded `nat`. This covers the 32-bit
  `int` product `3 * width * height`, the `uint32_t` counter (never above
  1000, by `CounterBounded`) and the `unsigned` face indices. The only
  width used is in `CaptureFilenameFits`, for 32-bit counters.
- `MeshLoader.DegenerateFraming`: requires the shared point to lie within
  ±1e30. Beyond that the starting bounds win and the radius is not 0.
- `MeshLoader.BoundsAttained`: requires every coordinate within ±1e30, for
  the same reason.
- `RenderLoop.CRem`: the contract states only the range of C's `%`, not
  its exact value. The one use, `(m + 1) % 4` with m in 0..3, is pinned down
  by `SpaceAdvances`.

## Findings

| source | as written | input that shows it | evidently intended | confidence | as-written member | corrected member |
|---|---|---|---|---|---|---|
| include/spectral.h:114-116 | `getDiamondDispersion` takes the dispersion between 656.3 nm and 486.1 nm (the C and F Fraunhofer lines) and is annotated as about 0.044 | the call itself: with the file's Sellmeier constants it lies in [0.0255, 0.0257] | the value 0.044 quoted for diamond, which is the dispersion between the B (686.7 nm) and G (430.8 nm) lines, and lies in [0.043, 0.045] | medium; not executed | Spectral.DiamondDispersionValue | Spectral.DiamondDispersionBGValue |
| include/spectral.h:79-83 | the edge intensity is `0.3 + 0.7 (1 - abs(w - 550) / 170)` below 420 nm and above 700 nm, and 1 in between | 419.9 nm gets below 79/170 (about 0.46) while 420 nm gets 1; 700.1 nm gets below 65/170 (about 0.38) while 700 nm gets 1; 780 nm gets 9/170 against 0.3 at 380 nm | a fade that is continuous at 420 and 700 and reaches 0.3 at both ends, as in the common form of this colour mapping: `0.3 + 0.7 (w - 380) / 40` below 420 and `0.3 + 0.7 (780 - w) / 80` above 700 | medium; not executed | Spectral.IntensityTaper | Spectral.EdgeFadeContinuous |
