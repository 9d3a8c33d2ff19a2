# Polyhedron puzzle core, in Dafny

The game shows polyhedra whose faces carry rotating puzzles. This project
models four parts of its core and proves properties of them:

- **Animation** (`animation.dfy`, module `Animation`). The `AnimationLerper`
  easing curves (linear, ease-in, ease-out, ease-in-out) are pure functions
  of the elapsed time. The `Animator` is a class whose `Start`, `Frame` and
  `Stop` update its fields in place. The `on_frame`/`on_stop` callbacks are
  not stored in the object. Instead, `Frame` returns what happened
  (`Idle`, `Moving(value)` or `Finished(value, finalValue)`), and the owner
  runs its callback right away. In the source the callback is also the last
  thing `frame` and `stop` do, so the two agree. `next_button.dfy` is one
  such owner: its `on_stop` restarts the animator in the other direction.
- **Face geometry and meshes** (`face_coordinates.dfy` and `face.dfy`,
  modules `FaceCoordinates` and `FaceModel`).
  - A face's coordinate system: segment vectors, clip planes, normal, the
    (u, v) basis and the rotation angle.
  - The clip-bound search, the sinking of points below the surface, and the
    (u, v) to face mapping.
  - The terrain, carve and wall vertex lists a face builds from its puzzle
    polygons.
  - The `Face` object's rotation and resonance animations: a completed
    rotation turns the puzzle exactly once.
- **Puzzle-face grid generator** (`draw_face.dfy`, module `DrawFace`).
  - Ring-by-ring vertex layout.
  - The de-duplicating `createPath`.
  - The link loops of `drawTriangle`, `drawSquare` and `drawPentagon`. Vertices
    and paths are objects, and a path is shared by its two ends.
  - The three generators share one ring/segment/vertex loop nest, `LinkRings`.
    A `Shape` parameter selects the per-vertex body. Their loop headers are
    identical in the source, so the rows below cite `drawTriangle`'s.
- **Level progression** (`gameplay_scene.dfy`, module `Gameplay`). The
  scene's level index, puzzle index, "next" button flag and last-puzzle
  flag.
  - Pure transition functions carry the proofs.
  - A `GameplayScene` class updates its fields through them.
  - What the scene asks of other objects (destroying, introducing or
    exploding puzzles, fades, events, progress, and the forwarding of each event) goes into a ghost effect log.

`reals.dfy`, `vectors.dfy` and `wrappers.dfy` hold arithmetic helper lemmas,
3-vectors over `real`, and `Option`.

## Model

| member | source | states |
|---|---|---|
| Animation.InterpolateEndpoints | game/engine/animation.py:48-54 | Progress is exactly 1 once the elapsed time reaches the duration, and exactly 0 at time 0, whatever the curve. |
| Animation.Pow5UnitBounds | game/engine/animation.py:31-37 | The fifth power maps [0,1] into [0,1], stays below 1 below 1, and stays positive above 0. |
| Animation.Pow5Monotone | game/engine/animation.py:31-37 | The fifth power is non-decreasing on non-negative reals. |
| Animation.TimePercentBounds | game/engine/animation.py:45-46 | `t/d` is non-negative for t ≥ 0, positive for t > 0, and below 1 before the duration. |
| Animation.TimePercentMonotone | game/engine/animation.py:45-46 | `t/d` is non-decreasing in t. |
| Animation.LinearIsElapsedFraction | game/engine/animation.py:45-46 | The linear curve is the elapsed fraction: multiplied by the duration it gives back the elapsed time. Within a run it lies in [0,1]. |
| Animation.EaseInBehindLinear | game/engine/animation.py:31-32 | Within a run ease-in is never negative and never ahead of the linear curve. |
| Animation.EaseOutMirrorsEaseIn | game/engine/animation.py:35-37 | Ease-out at t is one minus ease-in at duration − t. Within a run it is never behind the linear curve and never above 1. |
| Animation.EaseInOutBetween | game/engine/animation.py:39-43 | Within a run ease-in-out lies between ease-in and ease-out. |
| Animation.EaseInOutSymmetric | game/engine/animation.py:39-43 | Ease-in-out at duration − t is one minus its value at t: the second half of the run mirrors the first. |
| Animation.BasicCurvesInUnitInterval | game/engine/animation.py:31-46 | Strictly inside a run (0 < t < d), linear, ease-in and ease-out all lie strictly between 0 and 1. |
| Animation.EaseInOutIsConvexBlend | game/engine/animation.py:39-43 | Ease-in-out equals `(1-p)·in + p·out` with p = t/d in (0,1), a convex blend of ease-in and ease-out, so it too lies strictly between 0 and 1. |
| Animation.BlendBounds | game/engine/animation.py:43 | `in + (out-in)·p` stays strictly inside (0,1) when both ends do and p is in [0,1]. |
| Animation.InterpolateInUnitInterval | game/engine/animation.py:48-54 | For every t ≥ 0 and every curve, progress lies in [0,1], and reaches 1 exactly when t ≥ duration. So `frame` stops the run exactly at the duration. |
| Animation.InterpolateMonotone | game/engine/animation.py:31-54 | Progress never goes backwards in time for the linear, ease-in and ease-out curves. |
| Animation.Animator.constructor | game/engine/animation.py:59-73 | A new animator is idle with current = target = start value, zero elapsed time and zero difference. |
| Animation.Animator.Start | game/engine/animation.py:75-79 | Animating, elapsed time 0, the new target, difference = target − current, and current unchanged. The invariant is kept. |
| Animation.Animator.Frame | game/engine/animation.py:81-91 | Idle: nothing changes. Running: elapsed time grows by dt, and the returned value is `current + progress·difference`. `current_value` is not written. The run finishes (stop runs) exactly when the elapsed time reaches the duration, leaving current = target. Otherwise `on_frame` gets the value. |
| Animation.Animator.Stop | game/engine/animation.py:93-98 | Current jumps to the target. Not animating, difference 0, elapsed time untouched. Hands the target to `on_stop`. |
| Animation.RestartMeasuresFromCompletedValue | game/engine/animation.py:75-91 | A run restarted half-way measures its difference from the last completed value, not from the value on screen: linear over 100 ms from 0 toward 10 shows 5 at 50 ms, and restarting toward 20 gives difference 20. |
| NextButton.NextButtonMotion.constructor | game/ui/next_button.py:18-23 | The button starts animating from −DISPLACE toward +DISPLACE with a 1000 ms ease-in-out. |
| NextButton.NextButtonMotion.ReverseAnimator | game/ui/next_button.py:25-27 | `on_stop` restarts toward the opposite displacement from where the run ended. |
| NextButton.NextButtonMotion.Render | game/ui/next_button.py:29-30 | Returns `current + progress·difference` for the new elapsed time. When the run completes in this frame, the value is the old target and the animator is at once running again: current = old target, target = −old target, elapsed time 0. Otherwise current and target are unchanged and the elapsed time grows by dt. The motion never comes to rest. |
| FaceCoordinates.NextIndex | game/models/face.py:59 | The wrap-around successor index is `(i+1) mod n` and stays in range. |
| FaceCoordinates.NewCoordinateSystem | game/models/face.py:43-83 | Builds origin = v0 and u = v1 − v0. Builds one segment vector and one clip-plane normal per vertex, from vertex i and vertex (i+1) mod n, with the clip normal = v_i × v_next. Builds the normal and v vectors from the given normalisation, and rotation angle = 360 / num_segments. |
| FaceCoordinates.RotationsMakeFullTurn | game/models/face.py:83 | num_segments rotations add up to a full 360° turn. |
| FaceCoordinates.CrossOrthogonal | game/models/face.py:64 | A cross product is orthogonal to both its factors. |
| FaceCoordinates.EdgeEndsLieOnClipPlane | game/models/face.py:58-64 | Both ends of boundary edge i lie on clip plane i. |
| FaceCoordinates.VectorOutsideClipBounds | game/models/face.py:85-91 | Returns the first plane index whose dot product with the point is positive. Returns None exactly when no dot product is positive. |
| FaceCoordinates.SinkVector | game/models/face.py:93-95 | The sunk point stays on the line through the centre and the original point: their cross product is zero. The direction along that line is given by `SinkShortensVector`. |
| FaceCoordinates.UvToFace | game/models/face.py:97-107 | At depth 0 the point lies on the face's plane: the plane through the origin vertex spanned by the u and v vectors. |
| FaceCoordinates.SinkByZeroIsIdentity | game/models/face.py:93-95 | Sinking by depth 0 leaves a point unchanged. |
| FaceCoordinates.UvToFaceSinks | game/models/face.py:97-107 | The sunk (u,v) point is the surface point scaled by the sink multiplier, including at depth 0, where the source skips the call. |
| FaceCoordinates.SinkShortensVector | game/models/face.py:93-95 | For 0 ≤ d ≤ D the sunk vector is no longer than the original. It is strictly shorter for d > 0, and points the same way (positive multiplier) for d < D. |
| FaceCoordinates.SinkDepthMonotone | game/models/face.py:93-95 | Deeper sinking never gives a larger multiplier. |
| FaceCoordinates.UvBasisHitsFirstVertices | game/models/face.py:97-102 | (0,0) maps to vertex 0 and (1,0) maps to vertex 1. |
| FaceCoordinates.UvToFaceAffine | game/models/face.py:97-102 | The difference of two surface points is the (u,v) difference applied to the u and v vectors: the map is affine. |
| FaceCoordinates.UvRoundTrip | game/models/face.py:97-102 | With non-zero, orthogonal u and v, projecting a surface point back onto the basis recovers its (u,v). |
| FaceModel.NodesArePartitioned | game/models/face.py:186-188 | The nodes of the inactive polygons and of the active polygons together are exactly the nodes of all polygons, as multisets, so the counts add up too. |
| FaceModel.ActivePolygonsMembers | game/models/face.py:205 | The active polygons are exactly the polygons with the active flag. |
| FaceModel.InactivePolygonsMembers | game/models/face.py:186-188 | The polygons the terrain loop keeps are exactly the polygons without the active flag. |
| FaceModel.AllNodesAppend | game/models/face.py:186-191 | Collecting nodes distributes over concatenation of polygon lists. |
| FaceModel.FacePointsAt | game/models/face.py:189-190 | One face point per node: entry i is node i's (u,v) mapped at the given depth. |
| FaceModel.NodeUvsAt | game/models/face.py:191 | One (u,v) per node: entry i is node i's (u,v). |
| FaceModel.FacePointsAppend | game/models/face.py:186-190 | Mapping the nodes of two lists one after the other gives the two lists of points one after the other. |
| FaceModel.NodeUvsAppend | game/models/face.py:186-191 | The same for the (u,v) list. |
| FaceModel.SunkPointsFollowSurface | game/models/face.py:210-213 | Each basin point is the matching surface point sunk to the carve depth. |
| FaceModel.WallsLayout | game/models/face.py:217-230 | The wall list holds exactly 6 vertices per line, and block k is line k's quad. |
| FaceModel.WallFootMeetsBasin | game/models/face.py:218-229 | A quad's first two vertices are the line's surface points (t0, t1). The next two are those points sunk to carve depth (c0, c1), the same points the basin uses. |
| FaceModel.WallsAppend | game/models/face.py:217-230 | Walls of concatenated line lists are the concatenated walls. |
| FaceModel.AppendTerrainNodes | game/models/face.py:189-191 | Appends the nodes' surface points and their (u,v) to the two lists. |
| FaceModel.MakeTerrainVertices | game/models/face.py:181-202 | Terrain = the surface points of every node of every inactive polygon, in order. A parallel (u,v) list of equal length has entry i mapping to vertex i. |
| FaceModel.AppendBasinNodes | game/models/face.py:210-213 | Appends the nodes' points sunk to carve depth. |
| FaceModel.AppendWalls | game/models/face.py:216-230 | Appends each line's quad `t0,t1,c0,c1,c0,t1`. |
| FaceModel.ActiveLinesHaveEnds | game/models/face.py:216-228 | Every active polygon's inactive-neighbour lines have the two end nodes the quads read. |
| FaceModel.CarvePrefixStep | game/models/face.py:208-230 | Carve and walls over the first p+1 active polygons extend those over the first p by polygon p's basin and walls. |
| FaceModel.MakeCarveVertices | game/models/face.py:204-232 | Carve = every node of every active polygon, sunk to carve depth. Walls = the quads of all their inactive-neighbour lines, in order. |
| FaceModel.BuildMesh | game/models/face.py:131-141 | The terrain, (u,v), carve and wall lists together are the vertex lists of the face's polygons as stated above. |
| FaceModel.NewFace | game/models/face.py:112-178 | Builds the coordinate system of the three face vertices and all vertex lists of the puzzle face. The new face is at rest: angle 0, inactive lines, both animators idle, no rotations. |
| FaceModel.Face.constructor | game/models/face.py:119-178 | Stores the coordinate system, the vertex lists and the puzzle face. The rotation animator (ease-in-out, 500 ms, at 0) and the resonance animator (linear, 1000 ms, at 0.5) are new and idle. Line luminosity is inactive. |
| FaceModel.Face.Rotate | game/models/face.py:267-270 | Starts the rotation animator toward current + rotation angle. A rotate during a rotation restarts toward the same target. |
| FaceModel.Face.SetIsResonant | game/models/face.py:272-275 | Starts the resonance animator toward 1.0 when resonant, else 0.5. |
| FaceModel.Face.AnimateRotate | game/models/face.py:251-252 | An intermediate rotation frame sets the transform angle and leaves the puzzle's rotation count alone. |
| FaceModel.Face.StopRotation | game/models/face.py:246-249 | A completed rotation sets the final angle, rotates the puzzle once and emits FACE_ROTATED once. |
| FaceModel.Face.AnimateResonance | game/models/face.py:277-278 | Sets the line luminosity to the value given. |
| FaceModel.Face.RenderRotation | game/models/face.py:264 | One rotation frame. The elapsed time grows by dt, and the run ends exactly when it reaches the 500 ms duration. Until then the angle follows the frame value and the puzzle is untouched. On that frame the angle is the old target and the puzzle turns once. Idle: nothing changes. The animator's value is always (puzzle rotations) × rotation angle. |
| FaceModel.Face.RenderResonance | game/models/face.py:265 | One resonance frame. The elapsed time grows by dt, and the run ends exactly when it reaches the 1000 ms duration. Until then the luminosity is `current + progress·difference`, and the animator's current and target values are kept. On that frame it is the old target. Idle: nothing changes. Rotation and luminosity stay in their invariants. |
| FaceModel.Face.RenderFrame | game/models/face.py:264-265 | The rotation frame, then the resonance frame, with each one's three cases and elapsed-time clauses as above. The puzzle turns once exactly on the frame where the rotation's elapsed time reaches 500 ms, and never on an earlier frame. The luminosity follows the resonance. |
| FaceModel.ResonanceStaysInRange | game/models/face.py:170-178 | Interpolating between two luminosities in [0.5, 1.0] stays in [0.5, 1.0]. |
| DrawFace.SegmentOfIndex | generator/drawFace.js:189 | `countIdx = seg·n + c` with c < n lies in segment `seg`. |
| DrawFace.RingCoordinatesStep | generator/drawFace.js:183-199 | Inside segment `seg`, each step along the ring moves by that segment's unit vector. |
| DrawFace.AppendVertex | generator/drawFace.js:189-195 | Adds one fresh vertex with indices [r, countIdx], at the running coordinates, with no paths. |
| DrawFace.AppendSegment | generator/drawFace.js:183-200 | Adds the segment's vertices with the layout below. The running coordinates end at the next vertex's position. |
| DrawFace.BuildRing | generator/drawFace.js:177-201 | Ring r holds numSegments·verticesPerSegmentPerRing·r fresh vertices. Vertex k has indices [r,k], no paths, and coordinates from the ring start stepped by each vertex's segment unit vector. |
| DrawFace.ConstructVertices | generator/drawFace.js:155-205 | depth+1 rings. Ring 0 is one vertex [0,0] at −depth·ringShiftUnit. The other rings are laid out as above. |
| DrawFace.FindPath | generator/drawFace.js:78-81 | Finds a path whose key matches either order of the two ends. It is absent exactly when no such path exists. |
| DrawFace.AppendKeepsNoDuplicates | generator/drawFace.js:82-84 | Pushing a path whose ends are not yet joined keeps the list free of duplicates. |
| DrawFace.CreatePath | generator/drawFace.js:69-93 | Creates a new inactive path with indices [to, from], because `reverse()` works in place. Pushes it onto each end that has no path between the two, so both ends share one object. |
| DrawFace.CreatePathLinks | generator/drawFace.js:78-92 | After `createPath` each end holds a path between the two. No duplicate appears. An end that already had one is unchanged. |
| DrawFace.HasPathSymmetric | generator/drawFace.js:75-80 | The two-key comparison makes the order of the ends irrelevant. |
| DrawFace.CreatePathIdempotent | generator/drawFace.js:78-92 | A second `createPath` with the same or swapped ends changes nothing. |
| DrawFace.Neighbour | generator/drawFace.js:230-233 | The ring neighbour is the predecessor (0 wraps to the last) for triangles and pentagons, and the successor (the last wraps to 0) for squares. It is always in the ring. |
| DrawFace.HasPathGrows | generator/drawFace.js:82-92 | A path present in a list stays present when the list only grows. |
| DrawFace.GrowsTransitive | generator/drawFace.js:82-92 | Growing path lists twice is growing them once. |
| DrawFace.LinksSurvive | generator/drawFace.js:82-92 | Ring-neighbour links, once made, survive any later `createPath` calls. |
| DrawFace.LinkSurvives | generator/drawFace.js:82-92 | One link between two vertices, in the same ring or not, survives later `createPath` calls. |
| DrawFace.Connect | generator/drawFace.js:69-93 | A `createPath` call seen from the whole grid: only the two ends gain a path, both then hold one between the two, and no vertex gains a duplicate. |
| DrawFace.ConnectIfPresent | generator/drawFace.js:257-261 | When a vertex exists at the index, the two vertices end linked both ways. Otherwise nothing changes. |
| DrawFace.LinkTriangleInner | generator/drawFace.js:240-274 | A segment's second vertex is linked to the corner before it, which always exists. Past it, the vertex is linked to the previous inner-ring vertex when that index is in the inner ring. Inside the segment, it is linked to the next inner-ring vertex likewise. Only paths are added, and no duplicates. |
| DrawFace.LinkTriangleVertex | generator/drawFace.js:227-274 | Each triangle vertex ends linked, both ways, to its predecessor in the ring. |
| DrawFace.LinkSquareInner | generator/drawFace.js:343-362 | A segment's first vertex is linked to the vertex before it in the same ring (0 wraps to the last). Any other vertex is linked to its inner-ring vertex when that index is in the inner ring. The NaN `previousIdx` is never read. |
| DrawFace.LinkSquareVertex | generator/drawFace.js:335-362 | Each square vertex ends linked, both ways, to its successor in the ring. |
| DrawFace.Relink | generator/drawFace.js:441-443 | The pentagon's second `createPath(vertex, nextInnerVertex)` changes neither vertex. |
| DrawFace.LinkPentagonInner | generator/drawFace.js:420-444 | Links the vertex to the next inner vertex when that index is in the inner ring, even if the pass then throws. Adds only paths, and no duplicates. Reports a throw exactly when the re-link guarded by the previous inner vertex would pass an undefined next inner vertex. |
| DrawFace.LinkPentagonVertex | generator/drawFace.js:410-444 | Each pentagon vertex ends linked, both ways, to its predecessor. Throws exactly in the case above. |
| DrawFace.LinkVertex | generator/drawFace.js:227-233 | One vertex of the chosen generator: linked to its ring neighbour. Throws only for the pentagon case above. |
| DrawFace.LinkSegment | generator/drawFace.js:222-226 | Unless a vertex throws, every vertex of the segment and all before it are linked to their ring neighbours. |
| DrawFace.LinkRing | generator/drawFace.js:221 | Unless a vertex throws, the whole ring is linked. Succeeds exactly when no vertex of the ring throws. |
| DrawFace.LinkRings | generator/drawFace.js:217-219 | Unless it throws, every vertex of every ring is linked both ways to its ring neighbour. No vertex ever holds two paths between the same ends. Triangles and squares never throw. |
| DrawFace.Draw | generator/drawFace.js:207-212 | Lays out the grid and links it. Every ring vertex is linked to its neighbour and there are no duplicate paths, except when the pentagon re-link throws. |
| Gameplay.InitialState | game/scenes/gameplay_scene.py:28-40 | Level 0, puzzle 0, button down, last-puzzle flag false. In bounds exactly when level 0 has a puzzle. |
| Gameplay.AdvanceState | game/scenes/gameplay_scene.py:79-96 | `advance` always takes the "next" button down. |
| Gameplay.AdvanceEffects | game/scenes/gameplay_scene.py:79-96 | `advance` first destroys the current puzzle. |
| Gameplay.DestroyAll | game/scenes/gameplay_scene.py:88-89 | Destroys every puzzle of the level, in order. |
| Gameplay.GoToNextPuzzleEffects | game/scenes/gameplay_scene.py:42-47 | A click has at most one effect, and has one exactly when the button is up. It explodes the puzzle only when the last-puzzle flag is set. |
| Gameplay.ClickFollowsLastFlag | game/scenes/gameplay_scene.py:42-47 | With a correct flag, a click on the raised button explodes the puzzle exactly on the level's last puzzle and emits NEXT_PUZZLE exactly before it. |
| Gameplay.HandleEventProgress | game/scenes/gameplay_scene.py:98-106 | An event keeps the level in range and moves the scene by at most one puzzle. Only FADED_OUT or NEXT_LEVEL over a solved puzzle moves it. The button is up afterwards exactly when the event is PUZZLE_SOLVED, or it was up and the scene did not advance. |
| Gameplay.AdvanceKeepsBounds | game/scenes/gameplay_scene.py:83-94 | With no empty level, `advance` keeps the level and puzzle indices in range. |
| Gameplay.AdvanceMovesToNextPuzzle | game/scenes/gameplay_scene.py:83-96 | `advance` moves to the very next puzzle of the game (rank + 1), across level boundaries. On the final puzzle it keeps both indices. |
| Gameplay.FinalPuzzleIsStable | game/scenes/gameplay_scene.py:95-96 | On the final puzzle `advance` only lowers the button. |
| Gameplay.AdvanceKeepsLastFlag | game/scenes/gameplay_scene.py:83-94 | When every level after the first has one puzzle, the last-puzzle flag stays correct across `advance`. |
| Gameplay.LastFlagWrongAfterTwoPuzzleLevel | game/scenes/gameplay_scene.py:87-94 | With two levels of two puzzles, the level change keeps the flag true on a puzzle that is not the last. |
| Gameplay.GameLevelsKeepLastFlag | game/scenes/gameplay_levels.py:5-75 | For the game's own levels (2,1,1,1,1 puzzles), the flag is right at the start and stays right under `advance`. |
| Gameplay.HandleEventKeepsInvariants | game/scenes/gameplay_scene.py:98-106 | When no level is empty and every level after the first has one puzzle, every event keeps the indices in bounds and the last-puzzle flag correct. |
| Gameplay.UnsolvedPuzzleHoldsScene | game/scenes/gameplay_scene.py:104-106 | While the puzzle is unsolved, no event moves the level or the puzzle. |
| Gameplay.GameplayScene.constructor | game/scenes/gameplay_scene.py:20-40 | The scene starts in the initial state with level 0's puzzles loaded. |
| Gameplay.GameplayScene.Advance | game/scenes/gameplay_scene.py:79-96 | Moves to the `advance` successor state and logs its effects. Keeps the bounds and flag invariant. |
| Gameplay.GameplayScene.GoToNextPuzzle | game/scenes/gameplay_scene.py:42-47 | Changes no progression field and logs the button's effect. |
| Gameplay.GameplayScene.HandleEvent | game/scenes/gameplay_scene.py:98-111 | Moves to the event's successor state and keeps the invariant. Logs the branch's effects: the completed puzzle, the fade-out, or `advance`'s effects on a solved puzzle. Then logs the forwarding to the current puzzle when it is alive, and the forwarding to the button. |

## Left out

- GPU work is left out: shaders, buffers, vertex arrays, `renderFace`'s draw calls, `destroy` and `projected_vertices`. The glm matrix built by `__rotate_by_degrees` is recorded only as the angle it was built from.
- SVG and DOM work in generator/drawFace.js is left out: `drawLine`, `drawDot`, `drawPolygon`, `drawGroup`, `renderLine`, `renderVertex`, `renderPolygon` and the click handlers. With them go each vertex's `polygons` list, and the vertices read only for drawing: the triangle's `adjacentCornerVertex`, the square's `nextInnerVertex` and the pentagon's `nextVertex`.
- The `CoordinateSystems` table of generator/drawFace.js is not part of this model. Its fields are the parameter `GridSystem`, so the pentagon's throw condition is stated but not decided for the real constants.
- `normalize_vector` and `np.linalg.norm` are not part of this model. Normalisation is a function parameter of `NewCoordinateSystem`. `FACE_NORMAL_DISTANCE` is the real 0.5773502691896257, the shortest decimal that reads back as the double `np.sqrt(1/3)` gives. It is neither that double's exact value nor `sqrt(1/3)` itself.
- The unused `middle_vector` accumulation in `FaceCoordinateSystem.__init__` is left out.
- Numbers are Dafny reals, not IEEE doubles. Rounding and `math.pow` on floats are not modelled.
- `delta_time` is a non-negative whole number of milliseconds.
- `PuzzleFace`, `PuzzleNode` and `PuzzleGraph` are not part of this model. A polygon is reduced to its active flag, its nodes and its inactive-neighbour lines. `puzzle_face.rotate()` is counted in a ghost field, and `active_polygons` is taken to be the active subset of `polygons`.
- Event emission is left out. `emit_event`, the pygame event queue, `Progress`, `Polyhedron` and the console message on winning are recorded in ghost counters or an effect log. The forwarding of each event to the current puzzle and to the button is logged as `ForwardToPuzzle` and `ForwardToNextButton`; what those objects then do with the event is not part of this model.
- Audio is left out.
- The callbacks are not stored in the animator. `Frame` returns its outcome and the owner calls the callback, which matches the source because the callback is the last action of `frame` and `stop`.
- Animation.InterpolateMonotone: the ease-in-out curve is not covered; only linear, ease-in and ease-out are proved monotone.
- FaceModel.NewFace: requires a triangle face, a non-zero segment count and inactive-neighbour lines of at least two nodes, which the source takes for granted.
- FaceCoordinates.NewCoordinateSystem: requires at least two vertices and a non-zero segment count, so the IndexError and ZeroDivisionError the source raises on such input are not modelled.
- FaceCoordinates.UvRoundTrip: needs u and v to be non-zero and orthogonal. The source builds v from a normal orthogonal to u but does not normalise u, and orthogonality depends on the unseen `normalize_vector`.
- The model follows the code as written:
  - `stop` does not reset `time_elapsed`.
  - `frame` never writes `current_value`, so a restart measures from the last completed value.
  - `u_vector` is not normalised.
  - A face never rebuilds its vertex lists after a rotation.
  - `is_last_puzzle_on_level` is not recomputed on a level change. That is correct only because every level after the first has a single puzzle.
