# SpaceRacer — a Dafny model of its simulation and mesh-index core

SpaceRacer is a small WebGL racing scene. A UFO circles a sun on a ring-shaped
track. Gray obstacles drift in and out across the track. Gold timer power-ups
sit on it and add seconds to a countdown.

This project models the two parts of `SpaceRacer.js` that are logic rather than
drawing.

1. **The race session** (modules `RaceRules` and `Racer`). `RaceRules` holds
   each per-frame rule as a pure function:
   - the velocity controller
   - the heading accumulator
   - one radial step of an obstacle
   - the countdown clock
   - the pickup distance test
   - the count of active power-up slots

   It also holds the lemmas about these rules over many frames. `Racer.SpaceRacer`
   is a class with the scene's fields (`velocity`, `angleOfRotation`,
   `timerActive: array<bool>`, `activeCount`, `timerSeconds`, `lastTime`,
   `obstacles`). Its methods update those fields in place, as
   `spawn_timer_power_ups`, `check_collisions` and the simulation blocks of
   `display` do. Each method is proved against the rule functions, and it keeps
   the session invariant `Valid()`. That invariant says:
   - `activeCount` is the number of true flags, and it is 3
   - the velocity is within ±1.5
   - every obstacle lies in its band and has a direction of ±1
2. **Mesh index construction** (modules `ObjText`, `ObjMesh` and `Torus`).
   - `ObjText` gives the JavaScript string operations the OBJ reader relies on:
     `split`, `trim`, `split(/\s+/)`, the `/^kw\s/` tests and `Number()`.
   - `ObjMesh` models `Shape_From_File.parse_into_mesh`. The line loop and the
     face loop (with its `j`/`quad` counter trick) are methods. Each is proved
     equal to a functional reading of the file, `ParseLines`/`UnpackTokens`.
     Lemmas then state what that reading guarantees:
     - a repeated token reuses its number
     - a quad becomes `a,b,c,c,d,a`
     - every index names an existing vertex
     - the texture and normal fallback `(vertex[k] - 1 || vertex[0])` reads the
       record one past the position's own

     Numeric values are kept as the text they came from. A read past the end of
     an array is `NaN`/`undefined`.
   - `Torus` models the `Custom_Torus` constructor. Vertices are kept as grid
     points `(i, j)`. The index buffer, its wrap-around and the texture
     coordinates `(1 - i/sections, 1 - j/tube_slices)` are modelled exactly.

JavaScript numbers are modelled as mathematical reals and integers.
`Math.random` is an oracle. It is a sequence of slot draws, or the obstacle and
slot positions passed to the constructor. The key states and the UFO's position
are parameters.

## Model

| member | source | states |
|---|---|---|
| RaceRules.NextVelocity | SpaceRacer.js:319-334 | A velocity within ±1.5 stays within ±1.5. ArrowUp adds 0.02, capped at 1.5. Otherwise ArrowDown subtracts 0.02, capped at -1.5. With neither key, the magnitude drops by 0.02 down to 0 and the sign never flips. |
| RaceRules.ArrowUpTakesPrecedence | SpaceRacer.js:324-327 | With ArrowUp held, ArrowDown has no effect. |
| RaceRules.VelocityStaysBounded | SpaceRacer.js:319-334 | Over any sequence of key frames, a velocity that starts within ±max_speed stays within it. |
| RaceRules.CoastingShrinks | SpaceRacer.js:328-334 | After n frames with no key held, the magnitude of the velocity is max(0, \|v\| - 0.02n). |
| RaceRules.CoastingComesToRest | SpaceRacer.js:328-334 | Coasting for n frames with 0.02n >= \|v\| brings the velocity to exactly 0. |
| RaceRules.NextHeading | SpaceRacer.js:337-348 | The angle changes only while the velocity is non-zero. It changes by -0.075 for ArrowLeft alone and +0.075 for ArrowRight alone, and by a net 0 when both or neither are held. |
| RaceRules.StepObstacle | SpaceRacer.js:363-382 | The new distance is old + direction*speed, unless it goes past outer_radius+10 (then 95-0.1 with direction -1) or below inner_radius-10 (then 60+0.1 with direction 1). It always ends inside [60, 95], and the angle and speed are unchanged. |
| RaceRules.StepKeepsWellFormed | SpaceRacer.js:363-382 | One step of an obstacle whose direction is ±1 leaves it in the band with a direction of ±1. |
| RaceRules.GeneratedIsWellFormed | SpaceRacer.js:228-235 | A freshly generated obstacle (distance in [70, 85], direction ±1) already satisfies the band invariant. |
| RaceRules.StepObstacleNInvariant | SpaceRacer.js:363-382 | Any number of frames keeps an obstacle in the band with direction ±1, and keeps its angle and speed. |
| RaceRules.BouncesOffOuterEdge | SpaceRacer.js:368-375 | An obstacle clamped at the outer edge moves inward by exactly its speed on the next frame. |
| RaceRules.BouncesOffInnerEdge | SpaceRacer.js:368-379 | An obstacle clamped at the inner edge moves outward by exactly its speed on the next frame. |
| RaceRules.Tick | SpaceRacer.js:396-402 | When last_time is 0, the frame only records t. Otherwise the seconds drop by exactly 1 if and only if t - last_time >= 1, and last_time becomes t exactly then. It never drops by more than 1. |
| RaceRules.ClockNeverRunsFast | SpaceRacer.js:396-402 | Once the clock has started, over frames with non-decreasing times it never gains seconds. The seconds lost are at most the time between the starting last_time and the final one, so a long pause costs only one second. last_time never goes back. |
| RaceRules.SquaredDistance | SpaceRacer.js:267-271 | The squared distance is non-negative, and 0 from a point to itself. |
| RaceRules.SqrtComparison | SpaceRacer.js:262-273 | For the non-negative root s of d, `s < 3` holds exactly when `d < 9`. This justifies testing pickups without the square root. |
| RaceRules.WithinReach | SpaceRacer.js:262-273 | The pickup test: a squared distance below 9. By SqrtComparison it agrees with `sqrt(d) < 3`. |
| RaceRules.CountTrue | SpaceRacer.js:202-203 | The active count is between 0 and 12. It is 12 if and only if every slot is active, and 0 if and only if none is. |
| RaceRules.CountTrueUpdate | SpaceRacer.js:254-256 | Flipping one flag changes the count by exactly that flag's change. |
| RaceRules.FreeSlotExists | SpaceRacer.js:252-257 | While fewer than all slots are active, an inactive slot exists for a draw to hit. |
| Racer.SpaceRacer.constructor | SpaceRacer.js:192-236 | The session starts at rest with angle 0, 30 seconds and last_time 0, the given slot and obstacle positions, and exactly 3 active slots (the session invariant). |
| Racer.SpaceRacer.SpawnTimerPowerUps | SpaceRacer.js:251-259 | The loop ends with active_count == 3, consistent with the flags. It only turns inactive slots on and never deactivates one. Every slot it draws is active afterwards. When the draws last, each newly active slot is one that was drawn. It changes nothing when 3 are already active. |
| Racer.SpaceRacer.CheckCollisions | SpaceRacer.js:261-281 | Every slot active on entry and within reach is consumed, in increasing index order. Each consumed slot adds exactly 5 seconds, so the timer never decreases. Out-of-reach active slots stay active. The count ends at 3. The slot positions are not modified. |
| Racer.SpaceRacer.Consume | SpaceRacer.js:273-279 | Deactivating one slot, refilling and adding 5 seconds keeps the session invariant. Every other active slot stays active. |
| Racer.SpaceRacer.AdvanceObstacles | SpaceRacer.js:363-382 | Each obstacle is replaced in place by its one-frame step, and all of them stay in their band. |
| Racer.SpaceRacer.ControlVelocity | SpaceRacer.js:319-334 | The in-place velocity update equals NextVelocity of the old velocity. |
| Racer.SpaceRacer.Steer | SpaceRacer.js:337-348 | The in-place heading update equals NextHeading at the new velocity. |
| Racer.SpaceRacer.Countdown | SpaceRacer.js:396-402 | The in-place timer update equals Tick of the old clock. |
| Racer.SpaceRacer.Display | SpaceRacer.js:319-402 | One frame updates velocity (NextVelocity), heading (NextHeading at the new velocity), obstacles (StepObstacle each) and the countdown, in the source's order, and keeps the session invariant. Pickups: the consumed slots are distinct, in increasing order, and each within reach. Every slot active and within reach on entry is consumed, and every active slot out of reach stays active. The clock ends at Tick applied after exactly 5 seconds per consumed slot. |
| ObjText.Split | SpaceRacer.js:45 | `split('\n')` gives at least one part, and no part contains the separator. |
| ObjText.JoinSplit | SpaceRacer.js:45 | Joining the parts of a split with the separator gives the original text back. |
| ObjText.SplitJoin | SpaceRacer.js:45 | Splitting a join of separator-free parts gives the parts back. |
| ObjText.TrimStart | SpaceRacer.js:54 | The result is a suffix. Everything removed is white space, and the result does not start with white space. |
| ObjText.TrimEnd | SpaceRacer.js:54 | The result is a prefix. Everything removed is white space, and the result does not end with white space. |
| ObjText.Trim | SpaceRacer.js:54 | `trim()` returns the line with exactly its leading and trailing white space removed: what is cut off on either side is white space, and the result neither starts nor ends with white space. |
| ObjText.SplitWs | SpaceRacer.js:51-55 | `split(/\s+/)` gives at least one field. No field contains white space, and the fields together hold exactly the non-space characters in order. Where it splits is fixed by SplitWsPlain and SplitWsAtRun. |
| ObjText.SplitWsPlain | SpaceRacer.js:55 | Text without white space is a single field. |
| ObjText.SplitWsAtRun | SpaceRacer.js:55 | A maximal run of white space ends a field. The text before the run is one field, and the fields after it are those of the rest. |
| ObjText.TrimmedFieldsNonEmpty | SpaceRacer.js:54-55 | A trimmed non-empty line splits into non-empty fields only. |
| ObjText.HasKeyword | SpaceRacer.js:47-50 | The line tests `/^v\s/`, `/^vn\s/`, `/^vt\s/` and `/^f\s/`: the keyword followed by a white-space character. Its meaning in terms of fields is KeywordIsFirstField. |
| ObjText.KeywordIsFirstField | SpaceRacer.js:47-62 | `/^kw\s/` matches a line if and only if the line splits into at least two fields and the first is kw. So a `v` line has a first field of `v`, and a `vn` line is never taken for a `v` line. |
| ObjText.ToNumber | SpaceRacer.js:74-94 | `Number("")` is 0. Any other string that converts holds a decimal digit. |
| ObjText.NumberOfDecimal | SpaceRacer.js:74-94 | `Number()` reads back every decimal vertex number, with or without a minus sign. |
| ObjMesh.PositionBase | SpaceRacer.js:74-76 | `vertex[0] - 1`: the 0-based position record of a face token. Its values are given by TokenFields and FallbackSkipsOneRecord. |
| ObjMesh.Fetch | SpaceRacer.js:74-94 | `+arr[base * width + c]`: the entry when it exists, and NaN for a missing base or a read outside the array. NewTokenCopies gives the in-range case. |
| ObjMesh.Record | SpaceRacer.js:74-94 | The three (or two) pushes of one record always append exactly width entries. |
| ObjMesh.FallbackSkipsOneRecord | SpaceRacer.js:74-95 | For tokens `p` and `p/1/1`, the position record is p-1 but the texture and normal records read are p. |
| ObjMesh.TokenSplit | SpaceRacer.js:72 | `split('/')` of the token `p/q/r` gives its three numerals. |
| ObjMesh.TokenFields | SpaceRacer.js:72-95 | For token `p/q/r`, the position record is p-1. The texture record is q-1 and the normal record r-1, except that a field equal to 1 falls back to p, one record past the position's own. |
| ObjMesh.AddToken | SpaceRacer.js:69-99 | The handling of one face token: a hashed token pushes its number again, and a new token copies out its records and takes the next number. Its properties are stated by AddTokenKeepsNumbers, NewTokenCopies, NewTokenRecords and GrowthMatchesNumbers. |
| ObjMesh.AddTokenKeepsNumbers | SpaceRacer.js:69-99 | After a token is handled, it is hashed and the index pushed is its number. Existing numbers never change, and only that token can be added to the map. |
| ObjMesh.NewTokenCopies | SpaceRacer.js:71-99 | A new token appends, from the data read so far, the position and normal records its fields name (three entries each, normals even with no vn data) and its two-entry texture record only once vt data exists. Each record read inside the data is copied entry by entry, a record starting past the end appends NaN entries, and the earlier entries of all three arrays are kept. |
| ObjMesh.NewTokenRecords | SpaceRacer.js:71-99 | A new token `p/q/r` copies out position record p-1, normal record r-1 (p when r is 1) and, once vt data exists, texture record q-1 (p when q is 1). Records past the end of the data read so far come out as NaN entries, and earlier entries are kept. |
| ObjMesh.RecordPast | SpaceRacer.js:74-94 | A record whose first entry lies past the end of its array reads as NaN entries only, as `undefined * 1` does. |
| ObjMesh.UnpackTokens | SpaceRacer.js:64-103 | The tokens handled one after the other. Its properties are stated by UnpackKeepsConsistent, UnpackEmitsHashedNumbers and GrowthMatchesNumbers. |
| ObjMesh.UnpackKeepsConsistent | SpaceRacer.js:64-103 | Handling any tokens keeps the mesh consistent: 3 position and 3 normal entries per number, all indices and hashed numbers below `index`, and distinct tokens with distinct numbers. |
| ObjMesh.UnpackEmitsHashedNumbers | SpaceRacer.js:64-103 | Each handled token pushes exactly one index, the number its token holds, so a repeated token reuses its number. Earlier indices and numbers are untouched. |
| ObjMesh.GrowthMatchesNumbers | SpaceRacer.js:72-99 | Positions and normals grow by exactly 3 per new vertex number. |
| ObjMesh.FaceOrder | SpaceRacer.js:63-103 | A face of up to 3 tokens visits each once. A face of n >= 4 visits n+2 tokens (the extra push comes only at j==3), each a token of the face. |
| ObjMesh.FaceTokensShape | SpaceRacer.js:63-103 | A face of 4 or more tokens is visited as a,b,c,c,d,a followed by the fifth token onward. |
| ObjMesh.FaceOrderAt | SpaceRacer.js:64-68 | The k-th visit is the token that the reset of j from 3 to 2 and the j==3 extra push select. |
| ObjMesh.UnpackFace | SpaceRacer.js:62-104 | The face loop, with its counter reset and its extra push of the first token's number, equals handling the face's tokens in visiting order. |
| ObjMesh.FaceIndices | SpaceRacer.js:62-104 | A 3-token face pushes the numbers of a,b,c. A 4-token face pushes those of a,b,c,c,d,a. Every token gets hashed, and every pushed index is below `index`. |
| ObjMesh.StepLine | SpaceRacer.js:53-104 | One line, trimmed and split into fields, dispatched on its keyword in the order v, vn, vt, f. StepLineConsistent states that it keeps the mesh consistent. |
| ObjMesh.ParseLines | SpaceRacer.js:53-105 | The lines handled in order, from empty arrays. ParseLinesConsistent and MeshIndicesInRange state its properties, and ReadLines computes it. |
| ObjMesh.StepLineConsistent | SpaceRacer.js:53-104 | One line of any kind keeps the unpacked arrays consistent. |
| ObjMesh.ParseLinesConsistent | SpaceRacer.js:53-105 | Whatever the lines say, the unpacked arrays are consistent. |
| ObjMesh.Triples | SpaceRacer.js:107-114 | Record j of the result is entries 3j, 3j+1 and 3j+2. |
| ObjMesh.Pairs | SpaceRacer.js:115-117 | Texture coordinate j is entries 2j and 2j+1, undefined past the end of the texture data. |
| ObjMesh.MeshIndicesInRange | SpaceRacer.js:31-119 | For any file text, there are exactly 3 position entries and 3 normal entries per vertex, and every index names an existing vertex. |
| ObjMesh.ReadLines | SpaceRacer.js:45-105 | The imperative line loop computes the functional reading of the lines, and its result is a consistent mesh. |
| ObjMesh.ShapeFromFile.constructor | SpaceRacer.js:10-15 | Before the file loads, the shape has empty arrays and is not ready. |
| ObjMesh.ShapeFromFile.Load | SpaceRacer.js:106-122 | The copy loop appends one position, normal and texture coordinate per vertex number: position and normal j are entries 3j to 3j+2, texture coordinate j is entries 2j and 2j+1. It takes over the index buffer, every index of which names an appended vertex, and sets ready. |
| ObjMesh.ShapeFromFile.ParseIntoMesh | SpaceRacer.js:31-123 | After parsing, the shape holds the mesh of the file text, with its indices in range, and is ready. |
| Torus.Vertex | SpaceRacer.js:158-159 | The number of grid point (i, j): `i * tube_slices + j`. VertexBelow, VertexInjective and GridAt state its properties. |
| Torus.VertexBelow | SpaceRacer.js:158-159 | Grid point (i, j) is numbered below sections*tube_slices. |
| Torus.VertexInjective | SpaceRacer.js:158-159 | Distinct grid points get distinct numbers. |
| Torus.TexOf | SpaceRacer.js:153 | Each texture coordinate lies in (0, 1] × (0, 1]. |
| Torus.Next | SpaceRacer.js:155-156 | The next ring or slice, wrapping the last one to 0. NextIsModulo states that this is `(i + 1) % n`. |
| Torus.NextIsModulo | SpaceRacer.js:155-156 | The next ring or slice, with wrap-around, is `(i + 1) % n`. |
| Torus.CellIndices | SpaceRacer.js:155-159 | Each grid point pushes 6 indices, each below sections*tube_slices. |
| Torus.RowPoints | SpaceRacer.js:142-160 | The inner loop of ring i visits (i, 0), (i, 1), … in order. |
| Torus.GridRows | SpaceRacer.js:137-161 | The nested loops visit n*tube_slices grid points, all on the grid. |
| Torus.GridAt | SpaceRacer.js:137-158 | The vertex numbered i*tube_slices + j is the one pushed for grid point (i, j). |
| Torus.Cells | SpaceRacer.js:155-159 | The index buffer for k grid points has 6k entries, all below sections*tube_slices. |
| Torus.CellsAt | SpaceRacer.js:155-159 | The six indices of the k-th grid point start at position 6k. |
| Torus.TorusCounts | SpaceRacer.js:137-161 | There are sections*tube_slices vertices and 6*sections*tube_slices indices, every index naming a vertex. |
| Torus.CellSlice | SpaceRacer.js:137-161 | The indices of grid point (i, j) sit at position 6(i*tube_slices + j). |
| Torus.CellCorners | SpaceRacer.js:155-159 | Cell (i, j) is the triangles (i,j),(i+1,j),(i,j+1) and (i+1,j),(i+1,j+1),(i,j+1), with wrap-around, as vertices of the pushed grid. |
| Torus.EveryVertexUsed | SpaceRacer.js:137-161 | Every vertex is named by the index buffer, at position 6v. |
| Torus.WrapAround | SpaceRacer.js:155-159 | The last ring is stitched to ring 0, and the last slice to slice 0. |
| Torus.TrianglesNonDegenerate | SpaceRacer.js:158-159 | With at least 2 rings and 2 slices, every triangle has three distinct corners. |
| Torus.TwoPushes | SpaceRacer.js:155-159 | The loop body's two pushes, using `%`, make up the six cell indices. |
| Torus.TexCoords | SpaceRacer.js:153 | Texture coordinate k is that of grid point k. |
| Torus.PushPoint | SpaceRacer.js:151-159 | One inner-loop turn keeps the positions, texture coordinates and indices in step. |
| Torus.CustomTorus.constructor | SpaceRacer.js:134-162 | The shape holds every grid point in loop order, the same points as normals, their texture coordinates and the full wrapped index buffer. |

## Left out

- `load_file` and `fetch` (SpaceRacer.js:17-29): asynchronous network I/O. `ParseIntoMesh` takes the file text directly.
- `normalize_positions`, `copy_onto_graphics_card`, every `draw` call and the `Mat4` transforms belong to the graphics library, which is not part of this model. In particular the UFO's transform is not modelled; its position is a parameter of `CheckCollisions` and `Display`.
- The shader classes, the HUD canvas, the camera logic and `make_control_panel`: these are rendering and UI. The key states are a `Keys` parameter.
- main-scene.js only re-exports the scene.
- Trigonometry. Obstacles are kept in polar form (distance, angle), because the atan2/cos/sin round trip of SpaceRacer.js:365-382 sets the distance and keeps the direction. atan2 returns an angle in (-π, π], so the source's angle equals the model's only modulo 2π, and both give the same point. Torus positions and normals are kept as their grid points, because their cos/sin values are not modelled. For the same reason, `major_radius` and `minor_radius` are unused.
- Floating point: all arithmetic is exact on reals. For example, turning left and right in one frame cancels exactly here, while IEEE doubles may leave a rounding residue.
- `Math.random` and `getRandomNumber`. Slot draws are a parameter sequence, and positions and obstacles are constructor parameters.
- Racer.SpaceRacer.SpawnTimerPowerUps: once its draws run out, each further activation picks some inactive slot. Which slot it picks is unspecified, because the source's later draws are random.
- Racer.SpaceRacer.CheckCollisions: it does not say which slots the refill activates, only that the count returns to 3. The `console.log` on a pickup is output only.
- Racer.SpaceRacer.Display: its pickup clauses are those of CheckCollisions, with the same gap. It does not say which slots the refill activates, so a consumed slot is not tied to being active when the loop reaches it.
- ObjText.ToNumber: `Number()` is modelled only for the empty string and optionally signed decimal digit strings. Fractions, exponents, hexadecimal and `Infinity` count as NaN here, so a token field such as `1.5` takes the fallback where the source would index with 0.5.
- ObjMesh.AddToken: `hashindices` is a plain JavaScript object, so `in` also finds inherited keys such as `constructor`. A face token spelled like an `Object.prototype` member is treated as new here.
- The numeric values of vertex, normal and texture entries are opaque text; entries read from outside their array are `NaN` (or `undefined` for texture coordinates).
