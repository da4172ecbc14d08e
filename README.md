# Slime population engine

This project models the population engine of a p5.js "slimes" sketch (`sketch.js`) and proves properties of the model.

Slimes are disks with a shape tag and a colour. They drift over the canvas and merge when they collide:

- a black hole swallows whatever it touches;
- a bomb explodes into a paint splatter;
- clicking a slime splits it in two;
- clicking the cannon fires a new slime.

The modules follow the sketch's structure:

- `Slimes` (slimes.dfy): the agent record, the weighted shape table, the disk tests `intersects`/`isClicked`, and `bounceOffWalls`.
- `Collisions` (collisions.dfy): the generic area-weighted merge and the black hole's growth.
- `Splitting` (splitting.dfy): `Slime.split` and `ClusterSlime.split`, including the colour split and black-hole creation.
- `Frame` (frame.dfy): the collision pass of `draw()`. It is a scan over unordered pairs `i < j` with the `mergedIndices` exclusion set, followed by the rebuild of the next generation, and carries an event log used in the proofs.
- `Cannons` (cannon.dfy): the cannon, its hit box and the shot it fires.
- `Program` (sketch.dfy): the sketch's global state as class `Sketch`, with `draw()`'s collision pass and `mousePressed` as methods proved against the functions of `Frame` and `Clicked`.
- `Steering` (steering.dfy): the killer slime's choice of predators and target.
- `SoftBody` (softbody.dfy): the cluster slime's particles and springs, `calculateProperties` and `destroy`.
- `Flow` (flowfield.dfy): the flow field grid and `lookup`.

Conventions of the model:

- Numbers are exact reals.
- The square root is a parameter `sqrt` that returns the exact non-negative root (`IsSqrt`).
- Distances are compared squared.
- An area is `r * r`: the factor PI cancels from every ratio the sketch forms.
- Every random draw is passed in as a fraction `u` in [0, 1):
  - p5's `random(lo, hi)` is `lo + u * (hi - lo)`;
  - `random(array)` is the entry at `floor(u * length)`.
- The split axis is passed in as a unit vector.

## Model

| member | source | states |
|---|---|---|
| Slimes.BuildWeightedShapes | sketch.js:8-17 | The load-time loop builds exactly the weighted shape table `WeightedShapes()`. |
| Slimes.WeightedShapeCounts | sketch.js:8-17 | Each shape appears in the table exactly Weight(shape) times: once for killer and arrow, ten times for every other shape. |
| Slimes.RareShapes | sketch.js:8-17 | Killer and arrow each appear once, while bomb and circle appear ten times each. So it is killers and arrows that are rare, not bombs. |
| Slimes.WeightedShapesLength | sketch.js:8-17 | The weighted table has 62 entries. |
| Slimes.WeightedShapesLayout | sketch.js:8-17 | The table entry by entry: ten each of circle, square, triangle and bomb, then the arrow at index 40 and the killer at 41, then ten clusters and ten black holes. |
| Slimes.Intersects | sketch.js:389-392 | `intersects` is the strict disk-overlap test. It is stated on squared distances, so no square root is needed. Slimes.IntersectsIsDiskOverlap characterises it as d < rA + rB. |
| Slimes.IsClicked | sketch.js:394-397 | `isClicked` is the strict point-in-disk test, stated on squared distances. Slimes.IsClickedIsInsideDisk characterises it as d < r. |
| Slimes.IntersectsIsDiskOverlap | sketch.js:389-392 | Given the centre distance d, `intersects` holds iff d < rA + rB (a strict test). It is symmetric in the two agents. |
| Slimes.IsClickedIsInsideDisk | sketch.js:394-397 | Given the distance d from the point to the centre, `isClicked` holds iff d < r (a strict test). |
| Slimes.BounceOffWalls | sketch.js:442-456 | Only x, y and the velocity change. Past the right (bottom) edge, x = width − r (y = height − r). Otherwise, past the left (top) edge, x = r (y = r). This holds even when 2r > width. If the disk fits the canvas, it ends inside: r <= x <= width − r and r <= y <= height − r. A coordinate already in range is unchanged. A velocity component is negated exactly on an axis whose coordinate was clamped. |
| Collisions.WeightedAverage | sketch.js:166-177 | The area-weighted average v satisfies v * (wA + wB) == pA * wA + pB * wB. It lies between the two values, and equal weights give the midpoint. |
| Collisions.Merge | sketch.js:160-194 | The merged agent's area is the sum of the parents' areas, and its radius is positive. Position, velocity and each colour channel are area-weighted averages, so each lies between the parents' values. Alpha is A's. |
| Collisions.MergeOfEqualAreas | sketch.js:160-179 | Parents of equal area merge to the plain midpoint of their centres, velocities and R/G/B channels, with A's alpha. |
| Collisions.MergeEscalates | sketch.js:181-194 | The merge is a killer iff either parent is one; else a cluster iff either parent is one; else a plain slime; never a black hole. A plain result takes the shape of the strictly larger parent, and B's on a tie. Two black holes therefore merge into a plain slime tagged BlackHole. |
| Collisions.Consume | sketch.js:134-138 | The black hole's area grows by the prey's area. Nothing but its radius changes. The radius never shrinks and strictly grows when the prey has positive area. |
| Collisions.IntersectingHaveArea | sketch.js:115 | Two intersecting agents have positive combined area, so the merge's division is defined. |
| Splitting.RandomBetween | sketch.js:358 | `random(lo, hi)` lies between lo and hi. When lo < hi it lies in [lo, hi). |
| Splitting.PickRangeIsExact | sketch.js:353-368 | For a parent channel p in [0, 255], the pick range [max(0, 2p - 255), min(255, 2p)] is non-empty. A pick c1 lies in it iff both c1 and c2 = 2p - c1 lie in [0, 255]. |
| Splitting.SplitColours | sketch.js:349-372 | Both child colours keep the parent's alpha. For each channel, c1 + c2 == 2p. A parent colour in [0, 255] gives children in [0, 255]. |
| Splitting.WeightedPick | sketch.js:383-384 | `random(weightedShapes)` returns entry k of the 62-entry table exactly for a draw u in [k/62, (k+1)/62). With Slimes.WeightedShapeCounts, each shape is drawn for Weight/62 of [0, 1). |
| Splitting.RarePicks | sketch.js:383-384 | A split draws an arrow exactly for u in [40/62, 41/62) and a killer exactly for u in [41/62, 42/62): one draw in 62 each. |
| Splitting.NewBlackHole | sketch.js:378-379 | A new black hole is stationary, opaque black and tagged BlackHole. |
| Splitting.SlimeSplit | sketch.js:333-387 | Two children of radius 0.707 r, at 0.707 r + 1 (the child radius plus one) on either side of the centre along dir. The first is a plain slime with shape `WeightedPick(shape1)` and velocity dir * 5. The second is a black hole exactly when r > 60 and the roll is below 0.1. That black hole is stationary, black and tagged BlackHole. Otherwise the second is a plain slime with shape `WeightedPick(shape2)`, velocity dir * -5, and channels that average with the first's to the parent's. Both children keep the parent's alpha, except that a black-hole child is black. Colours stay in gamut. Both children have positive area when r is non-zero. |
| Splitting.ClusterChildRadius | sketch.js:833-834 | The child radius squared is half the parent's r squared (half the area). |
| Splitting.ClusterSplit | sketch.js:832-869 | Returns no children iff r * r < 200, that is newR < 10. Otherwise two children of equal radius at least 10, each with half the parent's area, at newR + 1 on either side of the centre. The first is a cluster slime with velocity parent vel + dir * 5. The second is a stationary black hole (black, tagged BlackHole) exactly on the black-hole roll. Otherwise it is a cluster slime with velocity parent vel − dir * 5, whose channels average with the first's to the parent's. Both children keep the parent's alpha, except that a black-hole child is black. An in-gamut parent colour gives in-gamut children. |
| Splitting.Split | sketch.js:302 | Dispatches on the agent's class. A split gives zero or two children, and always two for a non-cluster. |
| Splitting.SplitFails | sketch.js:302-303 | A split gives no children iff the agent is a cluster with r * r < 200. |
| Splitting.SplitChildrenApart | sketch.js:344-346 | The two children's centres are exactly 2 newR + 2 apart, so they do not intersect. |
| Splitting.ClusterSplitMergeRestores | sketch.js:832-869 | Merging the two children of a cluster split without a black hole gives back the parent exactly: centre, velocity, radius, colour and class. |
| Splitting.SlimeSplitMergeRestores | sketch.js:334 | Merging the two children of a plain split restores the parent's centre and colour, with zero velocity. The area is 2 * 0.707² times the parent's, not exactly the parent's. |
| Frame.ResolvePair | sketch.js:115-197 | One iteration of the inner loop. It keeps the number of agents. At most i and j become resolved, and nothing is ever unresolved. A pair with an index already resolved, or one that does not intersect, changes nothing. Any change resolves i or j. Frame.PairOutcome gives each branch. |
| Frame.ScanFrame | sketch.js:105-210 | The two nested loops as a value: rows i = 0 … n − 1, each over j = i + 1 … n − 1 in order. The population keeps its length. Frame.FrameOutcome states its results. |
| Frame.NextGeneration | sketch.js:204-209 | The next `slimes`: the unresolved agents followed by the frame's new agents, which end the sequence. Frame.SurvivorsLength and Frame.SurvivorsArea count and weigh the survivors. |
| Frame.Explosion | sketch.js:148-151 | The splatter lies at the midpoint of the two centres, with size rA + rB and the two colours. |
| Frame.PairOutcome | sketch.js:120-197 | Dispatch for one colliding unresolved pair:<br>• Exactly one black hole: it grows by the other's area, nothing else changes, and only the other index is resolved.<br>• Otherwise, a bomb: both indices are resolved, one splatter is added at the midpoint, and nothing is born.<br>• Otherwise: both indices are resolved and one agent is born, `Merge(a, b)`, with the combined area. |
| Frame.BlackHolesMerge | sketch.js:124-133 | Two colliding black holes take neither consumption branch. They merge into a plain slime tagged BlackHole. |
| Frame.RemovedAtMostOnce | sketch.js:111-113 | With the exclusion set, no index is removed more than once per frame. It is removed once iff it is in the removed set. |
| Frame.RemovedCount | sketch.js:144 | The number of removed indices is consumptions + 2 × (detonations + merges). |
| Frame.BombedAreRemoved | sketch.js:156-157 | Every detonated index is removed. |
| Frame.SurvivorsLength | sketch.js:204-209 | The survivors are the unresolved agents in index order. There are m minus the number of resolved indices below m. |
| Frame.SurvivorsArea | sketch.js:204-209 | The survivors' total area is the area of the unresolved indices. |
| Frame.PairInv | sketch.js:115-197 | Each pair step keeps the frame invariant. The invariant holds that:<br>• the log is exclusive;<br>• resolved == the log's removals;<br>• births match merges, and splatters match detonations;<br>• agents only grow as black holes;<br>• total area is conserved, counting detonated areas as lost. |
| Frame.FrameOutcome | sketch.js:105-210 | After the whole scan:<br>• every index is resolved at most once;<br>• there are as many new agents as merges and as many splatters as detonations;<br>• the next generation has n − consumptions − 2 × detonations − merges agents;<br>• only black holes change, by growing;<br>• its total area plus the area of detonated agents equals the old total area. |
| Cannons.NewCannon | sketch.js:1186-1191 | The cannon is 100 wide and 60 high, centred horizontally, and its centre half a barrel height above the canvas bottom (y + h/2 == height), so the barrel's bottom edge lies on the bottom of the canvas. |
| Cannons.Cannon.IsClicked | sketch.js:1209-1217 | The open box from the barrel's top to its centre plus a barrel height, 1.2 barrels wide. Cannons.ClickBox evaluates it for the canvas's cannon. |
| Cannons.ClickBox | sketch.js:1209-1217 | A click hits the cannon iff it is strictly inside the box (width/2 ± 60) × (height − 60, height + 30). The nozzle point on the top edge is outside. |
| Cannons.Loadable | sketch.js:288 | The filtered shapes are exactly the shapes other than bomb and killer. |
| Cannons.CannonShapesAre | sketch.js:288 | The cannon's shape list is circle, square, triangle, arrow, cluster, blackhole. |
| Cannons.CannonShot | sketch.js:283-295 | The shot:<br>• is never a bomb or killer, nor a killer or black-hole class;<br>• is a cluster iff tagged cluster;<br>• has radius in [15, 30) and starts at the nozzle;<br>• has vel.y = −12 and vel.x in [−2, 2);<br>• has channels in [100, 255) and alpha 60. |
| Program.Topmost | sketch.js:299-300 | The search from the top returns a clicked index with nothing above it clicked, or −1. |
| Program.FindTopmost | sketch.js:299-300 | The downward loop with `break` returns `Topmost`: the highest clicked index, or −1 when no agent is hit. |
| Program.Clicked | sketch.js:281-312 | `mousePressed` on the population: a cannon click fires a shot, or else the topmost hit agent larger than 3.5 is split. The population grows by at most one. Program.ClickOnCannon, Program.ClickSplits and Program.ClickKeeps state each case. |
| Program.ClickOnCannon | sketch.js:283-297 | A click on the cannon only appends one agent, never a black hole or bomb. |
| Program.ClickSplits | sketch.js:299-311 | A click that changes the population:<br>• hit an agent larger than 3.5;<br>• removed exactly that agent, keeping the others in order;<br>• appended exactly `Split` of that agent: its two children, which do not intersect (net +1). |
| Program.ClickKeeps | sketch.js:299-311 | A click off the cannon leaves the population unchanged iff no agent is hit, the topmost hit has r <= 3.5, or it is a cluster too small to split. |
| Program.Sketch.constructor | sketch.js:32-74 | `setup()` leaves the cannon for the canvas, the initial population (passed in) and no splatters. |
| Program.Sketch.Draw | sketch.js:105-210 | The nested loops with `mergedIndices` and `newSlimes` leave `slimes` as the next generation of the scan (`NextGeneration(ScanFrame(old slimes))`) and append the frame's splatters. The canvas and cannon are unchanged. |
| Program.Sketch.MousePressed | sketch.js:281-312 | The handler leaves `slimes` as `Clicked(old slimes, ...)`, whose properties are the Click lemmas. Nothing else changes. |
| Steering.PredatorsExactly | sketch.js:938-946 | The predator list holds exactly the other agents that are larger and closer than r + 100, each once, in increasing index order. |
| Steering.SelectTarget | sketch.js:933-971 | The loop returns the predator list. The target is:<br>• none when there are predators;<br>• otherwise none iff no agent is prey (another agent of radius <= own);<br>• otherwise a prey at minimal distance, strictly closer than every earlier prey, so the first one found wins ties. |
| SoftBody.Means | sketch.js:707-716 | The first loop and the scaling give the centroid of the particles and their mean velocity. |
| SoftBody.MaxDistance | sketch.js:719-726 | The largest distance from the centre to a particle is non-negative, bounds every particle's distance and is attained by one of them. |
| SoftBody.CentroidBalances | sketch.js:707-716 | The particles' offsets from the centroid sum to zero. |
| SoftBody.Physics.RemoveParticle | sketch.js:873 | The world drops that particle and keeps everything else. |
| SoftBody.Physics.RemoveSpring | sketch.js:876 | The world drops that spring and keeps everything else. |
| SoftBody.ClusterBody.CalculateProperties | sketch.js:705-727 | With no particles nothing changes. Otherwise x, y is the centroid and vel the mean velocity. r is the maximal distance to the centre: every particle lies within r, and one lies on it. |
| SoftBody.ClusterBody.Destroy | sketch.js:871-880 | The world loses exactly the body's particles and springs, and the body is left with none. A second call removes nothing. |
| Flow.CellCount | sketch.js:1136-1137 | `floor(extent / resolution)` whole cells: n cells fit and n + 1 do not. |
| Flow.NewFlowField | sketch.js:1134-1137 | The grid covers the canvas up to less than one cell on each axis. |
| Flow.Constrain | sketch.js:1178-1179 | p5's `constrain` returns a value in [low, high]: the value itself when in range, else the bound it crosses. |
| Flow.Cell | sketch.js:1178-1179 | The clamped column (row) index is always a valid index in [0, count). |
| Flow.Lookup | sketch.js:1177-1181 | `lookup` always returns one of the grid's vectors. It never indexes out of range. |
| Flow.WithinCell | sketch.js:1178 | n is `floor(coord / resolution)` iff the cell [n·res, (n+1)·res) holds coord. |
| Flow.CellOnGrid | sketch.js:1178-1179 | A coordinate on the grid maps to the cell that holds it: clamping never moves it. |
| Flow.CellClamps | sketch.js:1178-1179 | A coordinate before the grid maps to the first cell. One at or past the start of the last cell maps to the last cell. |
| Flow.LookupOnGrid | sketch.js:1177-1181 | A point on the grid reads the vector of the cell that holds it. |

## Left out

- Rendering: every `display()`, `drawSlimeShape`, the droplets of `createPaintSplatter` (only its midpoint, colours and size are kept), `FlowField.display`, `Cannon.display`, the paint canvas and trails.
- The toxiclibs Verlet integration (`physics.update`, springs, world bounds) is a foreign library. The physics world is kept only as the registry of particle and spring identities that `destroy` removes from. Its lists become sets, so duplicates are not modelled.
- Randomness and noise (`random`, `random2D`, `noise`, `noiseSeed`, `FlowField.init`): every draw is a parameter, and the field's vectors are given.
- Movement: `move`, `follow`, `seek`, `flee`, the steering forces of `calculateSteering` and black-hole gravity need `setMag`, `limit` and trigonometry on floats. Only the choice of predators and target is modelled.
- Floating point: reals are exact, `sqrt` is exact, and p5's `levels` rounding of colours is not modelled.
- Splitting.SlimeSplitMergeRestores: the sketch's 0.707 stands in for 1/sqrt(2). The lemma keeps it and states the area that results, 2 × 0.707² of the parent's, instead of claiming area conservation.
- Slimes.BounceOffWalls: the `moveOffset += 0.01` of non-arrow slimes only feeds the noise-driven movement, which is not modelled; agents carry no noise offset.
- Agents are values. `bounceOffWalls` returns the updated agent instead of writing the fields of a shared object. A black hole that grows in `draw()` is replaced in the sequence.
- Aliasing between agents and their soft bodies is not modelled. The `destroy()` calls that `draw()` and `ClusterSlime.split` make on cluster slimes are not connected to the population model; `SoftBody.ClusterBody.Destroy` models what one such call does.
- The rest of a frame is not modelled: black-hole gravity, the movement of every agent, and the `move()` through which clusters run `calculateProperties`.
- Flow.Lookup: requires at least one column and one row. With a canvas narrower than one cell, the sketch indexes an empty array and fails.
- Steering.SelectTarget: `other === this` is identity; the model uses the killer's index.
- `keyPressed`, the UI checkboxes and the black hole's decorative orbit particles are presentation.
- Slimes.WeightedShapeCounts: the comment at sketch.js:8 says bombs are made rarer, but the code makes killers and arrows rarer. The model follows the code.
