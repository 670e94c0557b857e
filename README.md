# Mouse-look thruster demo: the damage and actuation pipeline in Dafny

This project models the core of a small browser game in which modular
vehicles, built from cells on a 24×24 grid, fly by thrusters and are shot
apart. It covers the part of the game that is plain bookkeeping and
decision logic, and proves what that logic promises.

- **Grid shapes** (`cellrect.dfy`, `atomshape.dfy`). These cover the
  `CellRect` rectangle arithmetic (`combine`, `clip`, area) and the two fill
  algorithms, `basic` and `mergeRows`. They also cover `AtomShape`, which
  turns the hp grid into a hole-free binary shape by row and column span
  filling, memoises on the joined string, and splits the shape into
  disjoint rectangles that cover it exactly.
- **Damage engine** (`damagecalculator.dfy`). The reusable damage buffer is
  reset only inside a clipped working rectangle, radial damage policies
  accumulate into it, and the result is gathered into parallel atom and
  damage lists.
- **Destructible vehicle** (`parts.dfy`, `vehiclegrid.dfy`,
  `vehiclemodel.dfy`, `vehiclecontroller.dfy`):
  - atoms, gizmos, the core, thrusters and base thrusters;
  - hp bookkeeping, the gizmo detach cascade and `cellCount`;
  - the base-thruster rebuild and loading from a dense id array;
  - spawn, kill and explode;
  - the controller's load, spawn, kill and unload guards.
- **Collision event router** (`collisionevents.dfy`, `contacts.dfy`,
  `collisionmanager.dfy`, `simulation.dfy`, `physics.dfy`,
  `physicscomponent.dfy`, `vehicleevents.dfy`):
  - event names parsed into condition and argument masks;
  - the canonical per-pair collision records and their pools;
  - the contact listener, firing and per-step clearing;
  - the actor proxies' event lists;
  - the sorted-array diff behind a physics component's subscriptions.
- **Thruster allocation** (`thrusteraiutils.dfy`, `mouselookthrusterai.dfy`,
  `thrusterai.dfy`, `vehiclephysics.dfy`):
  - the greedy coordinate step `iterateOnce` and the turn controller
    `findTargetTorque`;
  - the mouse-look AI's force and torque envelope and its bounded allocation
    loop;
  - the basic forward AI;
  - the vehicle's collision-damage handler and thruster force filter.
- **Support registries** (`arraypool.dfy`, `junkyard.dfy`,
  `componentsystem.dfy`, `inputcontroller.dfy`, `util.dfy`):
  - the reference-counted array pool;
  - the first-wins gizmo catalog and its key check;
  - the entity/component registry with its init-before-start order;
  - the keybinding control-set stack.

Objects whose fields the game updates in place are Dafny classes with
`modifies` frames, and the algorithms that loop are methods with
invariants. Each such method is proved against a function on values, and
the lemmas about those functions carry the properties.

- Events published on an emitter are appended to a `log` or `published`
  sequence.
- Box2D contacts are reduced to body ids and opaque payloads.
- `Math.exp`, `Math.sqrt`, trigonometry and the world-to-cell conversion
  are function parameters.
- `Infinity` hp is the `Infinite` case of `Hp`.
- Bit masks are sets of flags.

## Model

| member | source | states |
|---|---|---|
| ArrayPools.PoolArray.Retain | src/shared/arraypool.js:18-23 | a non-pooled array throws and is untouched; otherwise the retain count goes up by exactly one |
| ArrayPools.ArrayPool.Size | src/shared/arraypool.js:12-14 | the pool size is the number of entries on the free list |
| ArrayPools.ArrayPool.Allocate | src/shared/arraypool.js:5-10 | the most recently freed array is popped and reused with its contents, else a fresh empty one is made; either way it ends pooled with count 1 |
| ArrayPools.ArrayPool.Release | src/shared/arraypool.js:28-38 | a non-pooled array throws and nothing changes; otherwise the count drops by one, and at a count ≤ 0 the array is emptied and pushed on the free list |
| ArrayPools.DoubleRelease | src/shared/arraypool.js:28-38 | releasing a fresh array twice puts it on the free list twice, so the next two allocations hand out the same array |
| CellRects.SetLRTB | src/shared/cellrect.js:48-54 | after setting from (l, r, t, b) the left, derived right (left+width−1), top and derived bottom (top+height−1) are exactly l, r, t, b, and the rect holds exactly the cells with l ≤ x ≤ r and t ≤ y ≤ b |
| CellRects.Combine | src/shared/cellrect.js:56-63 | the result's left/top are the minima and right/bottom the maxima of the two inputs' edges, so every cell of either input lies in it |
| CellRects.Clip | src/shared/cellrect.js:65-72 | the result holds a cell iff both inputs hold it: the intersection |
| CellRects.Area | src/shared/cellrect.js:74-76 | the area is width·height, and for a non-empty rect at least its width and its height |
| CellRects.Basic | src/shared/cellrect.js:83-95 | slot 24·r+c holds the 1×1 rect at (c, r) exactly when that cell is set, and every other slot is empty |
| CellRects.MergeRows | src/shared/cellrect.js:97-132 | every slot ends equal to `MergedAt`: the first row of each stack of equal-width row runs starting in the same column holds the whole stack, all other slots are empty |
| CellRects.ScanRows | src/shared/cellrect.js:98-115 | after the row pass each maximal run of set cells has one rect of height 1 and the run's width, stored at the run's first cell |
| CellRects.MergeStacks | src/shared/cellrect.js:117-129 | the bottom-up merge pass turns the one-rect-per-run array into the `MergedAt` array |
| CellRects.MergeStep | src/shared/cellrect.js:122-127 | one merge step changes only the pair of slots at column c of rows k and k+1: when both hold rects of equal width the upper one gains the lower one's height and the lower one is deleted |
| CellRects.MergedAnchored | src/shared/cellrect.js:104-126 | each surviving rect sits at the index of its own top-left cell, has positive width and height and lies inside the 24×24 grid |
| CellRects.MergedCoversOnlyOccupied | src/shared/cellrect.js:97-132 | every cell a surviving rect covers is set |
| CellRects.MergedCoversOccupied | src/shared/cellrect.js:97-132 | every set cell is covered by some surviving rect |
| CellRects.MergedDisjoint | src/shared/cellrect.js:97-132 | two surviving rects that share a cell are the same rect, so the rects are pairwise disjoint |
| AtomShapes.ModelHps | src/shared/atomshape.js:24-27 | before filling, cell i holds the hp of the atom at grid index i, or 0 when that index is empty |
| AtomShapes.CellValues | src/shared/atomshape.js:24-27 | the first loop of `setFromModel` produces exactly `ModelHps` of the model |
| AtomShapes.ScanFwd | src/shared/atomshape.js:70-78 | a forward scan stops at the first position whose truthiness is the one sought, or at the line's end, having passed only the other kind |
| AtomShapes.ScanBack | src/shared/atomshape.js:89-91 | a backward scan stops at the last position whose truthiness is the one sought, or at −1, having passed only the other kind |
| AtomShapes.ScanForward | src/shared/atomshape.js:70-78 | the forward scanning loop returns the `ScanFwd` position |
| AtomShapes.ScanBackward | src/shared/atomshape.js:89-91 | the backward scanning loop returns the `ScanBack` position |
| AtomShapes.LineRange | src/shared/atomshape.js:67-93 | the scans of one line give the fill range: empty for an all-zero line and for a line with no hole after its first run, else from the first hole after the first run to the last hole before the last run |
| AtomShapes.FillLine | src/shared/atomshape.js:95-98 | filling one line sets exactly its fill range to 1 and leaves every other cell of the grid unchanged |
| AtomShapes.FillLines | src/shared/atomshape.js:64-138 | `_fillRows`/`_fillCols` in place turn the grid into `Filled` of its old contents, line by line |
| AtomShapes.FilledSpan | src/shared/atomshape.js:64-138 | after the fill a cell of a line is non-zero iff it lies on the closed span from the line's first to its last non-zero cell; so an empty line stays empty and a line that is one run is unchanged |
| AtomShapes.FillKeepsLive | src/shared/atomshape.js:96-98 | filling never clears a non-zero cell |
| AtomShapes.CombineFills | src/shared/atomshape.js:36-38 | each cell becomes 1 when both the row-filled and the column-filled copy are non-zero there, else 0 |
| AtomShapes.FilledShape | src/shared/atomshape.js:29-38 | the hole filling yields the 0/1 grid `Shape` of the cell values |
| AtomShapes.ShapeIsSpans | src/shared/atomshape.js:29-38 | a cell is 1 in the shape iff it lies between the first and last non-zero cell of its row and between the first and last non-zero cell of its column |
| AtomShapes.ShapeHoldsLiveCells | src/shared/atomshape.js:33-38 | every cell whose atom has non-zero hp ends up 1 |
| AtomShapes.JoinInjective | src/shared/atomshape.js:41-45 | two 0/1 grids with the same joined string are the same grid, so skipping the rebuild on an equal string loses nothing |
| AtomShapes.CollectRects | src/shared/atomshape.js:52-57 | the copy loop keeps exactly the defined `mergeRows` entries, in index order |
| AtomShapes.MergedGridOf | src/shared/atomshape.js:50 | the array `mergeRows` returns is the merged grid of the shape |
| AtomShapes.ShapeRects | src/shared/atomshape.js:50-57 | the rebuilt rectangle list is exactly the defined entries of the shape's merged grid, in index order |
| AtomShapes.SameStringSameShape | src/shared/atomshape.js:41-49 | when the stored string equals the new shape's string, the stored shape is the new one and the stored rectangles are already its rectangles, so skipping the rebuild loses nothing |
| AtomShapes.RectIsMerged | src/shared/atomshape.js:50-57 | every rect of the shape is a `mergeRows` rect anchored at its own top-left cell |
| AtomShapes.RectsCoverShape | src/shared/atomshape.js:50-57 | a cell is 1 iff some rect of `rects` covers it |
| AtomShapes.RectsDisjoint | src/shared/atomshape.js:50-57 | no cell is covered by two different rects of `rects` |
| AtomShapes.AtomShape.SetFromModel | src/shared/atomshape.js:20-61 | `cells` becomes the hole-filled 0/1 shape of the model's hp values, `string` its join, `rects` its merged rects; when the joined string equals the stored one, `string` and `rects` are left as they were |
| DamageCalculators.ApplyOp | src/shared/damagecalculator.js:49-71 | `step`, `clearNext` and the distance computation change only a cell's damage fields or distance, never its position or its atom |
| DamageCalculators.RectVisitsMembers | src/shared/damagecalculator.js:136-148 | the column-by-column, top-down visiting order holds exactly the cells of the rectangle, each once, all on the grid when the rectangle is clipped |
| DamageCalculators.RadialAdds | src/shared/damagecalculator.js:206-220 | the damage pass adds to a cell exactly nothing beyond the radius and otherwise the rounded-up Gaussian of its squared distance times the base damage |
| DamageCalculators.OpAllAt | src/shared/damagecalculator.js:136-148 | after a pass over distinct cells, a visited cell whose slot is in use has been operated on exactly once and every other cell is unchanged |
| DamageCalculators.ResetAllAt | src/shared/damagecalculator.js:106-125 | after a reset over distinct cells, a visited slot is in use exactly when a live atom sits in the cell, and then the cell holds that atom with zero damage; unvisited slots and cells are unchanged |
| DamageCalculators.GatherAllAppend | src/shared/damagecalculator.js:264-269 | gathering over two runs of cells in sequence appends the second run's pairs to the first's |
| DamageCalculators.HarvestPairs | src/shared/damagecalculator.js:262-303 | every gathered pair is a live atom in a visited cell with that cell's accumulated damage, which is non-zero |
| DamageCalculators.HarvestComplete | src/shared/damagecalculator.js:262-303 | every visited cell with a live atom and non-zero accumulated damage is gathered, with that damage |
| DamageCalculators.GatherHarvest | src/shared/damagecalculator.js:264-269 | gathering a buffer whose working rectangle is in the accumulated state yields the harvest, independent of what the buffer held before |
| DamageCalculators.ResetAccumulating | src/shared/damagecalculator.js:106-125 | right after reset every cell of the working rectangle is in the accumulated state for no policies: in use iff a live atom sits there, with zero damage |
| DamageCalculators.TwoPassesApplied | src/shared/damagecalculator.js:222-236 | the distance pass followed by the damage pass gives each in-use cell of the policy rectangle its distance and its radial damage, and leaves every other cell unchanged |
| DamageCalculators.PolicyStep | src/shared/damagecalculator.js:293-296 | running one more policy extends every cell's accumulated damage by that policy's share |
| DamageCalculators.RadialRect | src/shared/damagecalculator.js:195-200 | the policy rectangle lies on the 24×24 grid |
| DamageCalculators.Settle | src/shared/damagecalculator.js:194 | a zero radius is replaced by the base damage and any other radius is kept |
| DamageCalculators.RadialRectCovers | src/shared/damagecalculator.js:193-201 | every grid cell whose centre lies within the radius of the position is inside the policy rectangle |
| DamageCalculators.CombineAllCovers | src/shared/damagecalculator.js:285-288 | combining the policy rectangles stays on the grid and covers every cell of each of them |
| DamageCalculators.DamageBuffer.constructor | src/shared/damagecalculator.js:87-104 | every cell record (i, j) is made at index j·24+i with no atom and no damage, and no slot is in use |
| DamageCalculators.DamageBuffer.Get | src/shared/damagecalculator.js:127-129 | on the grid, `get` returns a record exactly when its slot is in use, and that record is the one for (i, j) |
| DamageCalculators.DamageBuffer.Reset | src/shared/damagecalculator.js:106-125 | the new cells and slots are the reset of the old ones over the rectangle's visiting order, with the live atoms read from the model |
| DamageCalculators.DamageBuffer.ResetColumn | src/shared/damagecalculator.js:113-123 | the row loop extends the reset by the column's cells, from the top |
| DamageCalculators.DamageBuffer.ResetCell | src/shared/damagecalculator.js:114-122 | a slot is pointed at its cleared record holding the atom when that atom's hp is positive, and emptied otherwise |
| DamageCalculators.DamageBuffer.OperateOnRect | src/shared/damagecalculator.js:136-148 | the new cells are the old ones with the function applied to each in-use cell of the rectangle in visiting order; slots are unchanged |
| DamageCalculators.DamageBuffer.OperateOnColumn | src/shared/damagecalculator.js:141-146 | the row loop extends the pass by the column's cells, from the top |
| DamageCalculators.DamageBuffer.OperateOnCell | src/shared/damagecalculator.js:142-145 | a cell is operated on exactly when its slot is in use |
| DamageCalculators.DamageBuffer.Step | src/shared/damagecalculator.js:150-155 | each in-use cell of the rectangle takes its next damage as its damage; every other cell is unchanged |
| DamageCalculators.DamageBuffer.ClearNext | src/shared/damagecalculator.js:157-162 | each in-use cell of the rectangle takes its damage as its next damage; every other cell is unchanged |
| DamageCalculators.DamageBuffer.Gather | src/shared/damagecalculator.js:299-302 | the emptied lists receive, in visiting order, the atom and damage of each in-use cell of the rectangle with non-zero damage |
| DamageCalculators.DamageBuffer.GatherColumn | src/shared/damagecalculator.js:264-269 | the lists are extended by the pairs of one column, from the top |
| DamageCalculators.RadialPolicy.constructor | src/shared/damagecalculator.js:164-184 | a new policy has damage modifier 1 and radius 0 |
| DamageCalculators.RadialPolicy.SetDamageModifier | src/shared/damagecalculator.js:170-173 | the damage modifier becomes the given one |
| DamageCalculators.RadialPolicy.SetRadius | src/shared/damagecalculator.js:188-191 | the radius becomes the given one |
| DamageCalculators.RadialPolicy.ComputeRect | src/shared/damagecalculator.js:193-201 | the radius is settled, the rectangle is the clipped radial rectangle of the position and is returned, and computing it again changes nothing |
| DamageCalculators.RadialPolicy.Execute | src/shared/damagecalculator.js:222-236 | every in-use cell of the policy rectangle gets its distance and its radial damage under base damage × modifier; every other cell is unchanged |
| DamageCalculators.RunPolicies | src/shared/damagecalculator.js:293-296 | running the policies in order leaves every cell of the working rectangle with the damage of all of them added up |
| DamageCalculators.RunPolicy | src/shared/damagecalculator.js:295 | one policy's run adds its hit to those already accumulated |
| DamageCalculators.Accumulate | src/shared/damagecalculator.js:290-302 | reset, the policies and the gathering together yield the harvest of the working rectangle: each live atom with its non-zero accumulated damage, in visiting order |
| DamageCalculators.DamageCalculator.constructor | src/shared/damagecalculator.js:239-248 | a new calculator has no policies, base damage 0 and a fresh buffer |
| DamageCalculators.DamageCalculator.AddPolicy | src/shared/damagecalculator.js:252-257 | the policy is appended after those already added |
| DamageCalculators.DamageCalculator.ComputeRects | src/shared/damagecalculator.js:284-288 | each policy's rectangle is computed once in order, with its radius settled, and the working rectangle is their combination, on the grid and covering each |
| DamageCalculators.DamageCalculator.FitPolicy | src/shared/damagecalculator.js:286-288 | computing one more policy's rectangle leaves the earlier policies' rectangles as they were, even when the same policy object appears twice |
| DamageCalculators.DamageCalculator.Execute | src/shared/damagecalculator.js:271-303 | with no policy it fails as `policies[0]` is undefined; otherwise each policy's radius and rectangle are settled, the working rectangle covers them all, and the result is exactly the harvest of the live atoms with non-zero accumulated damage |
| Parts.Atom.constructor | src/shared/atom.js:6-15 | a new atom has no gizmo, its grid position and gfxID, its size from the atom data, and hp equal to max hp from the data |
| Parts.Atom.SetGizmo | src/shared/atom.js:17-24 | an unowned atom takes the gizmo; an owned one throws "Gizmo is already set" and keeps its owner |
| Parts.LiveCountZero | src/shared/gizmo.js:44-51 | the `reduce` counts no live atom exactly when no atom has hp above zero, so a plain gizmo is dead exactly then |
| Parts.Gizmo.constructor | src/shared/gizmo.js:11-31 | a new gizmo keeps its model name and angle, takes the instance's gfxID or else the catalog's (none for a base thruster), is unattached with key −1 and no atoms; a core takes the catalog's maxHp and base force/torque, a thruster the catalog's force and zero torque |
| Parts.Gizmo.AddAtom | src/shared/gizmo.js:38-42 | the atom is appended before it is claimed; the claim throws when it already has an owner; a core then raises an atom whose maxHp is below its own to Infinity and refills it |
| Parts.Gizmo.ComputeTorque | src/shared/thruster.js:43-52 | the stored and returned torque is the cross product of the lever arm from the centre of mass with the local force |
| Parts.TorqueAtCentre | src/shared/thruster.js:46-50 | a thruster on the centre of mass gives no torque |
| Parts.ParallelForceNoTorque | src/shared/thruster.js:46-50 | a force along the lever arm gives no torque |
| Parts.TorqueScales | src/shared/thruster.js:46-50 | torque is linear in the force |
| Parts.CoreCheck | src/shared/core.js:18-23 | the core constructor's check passes exactly when the base force is given and non-zero |
| Parts.NewCore | src/shared/core.js:5-24 | a core takes its maxHp and base force/torque from the catalog and reports the failed check as its error |
| Parts.RegisterBaseThruster | src/shared/basethruster.js:29-36 | loading the base thruster registers its catalog entry, with force 2, unless the name is already registered |
| VehicleGrid.Placed | src/shared/vehiclemodel.js:342-346 | the atoms asked for are the non-zero entries of the id array, each with its index, in order, and no more than there are entries |
| VehicleGrid.PlacedComplete | src/shared/vehiclemodel.js:342-348 | every non-zero id of the array yields an atom |
| VehicleGrid.CellsCover | src/shared/vehiclemodel.js:351-355 | every cell (x, y) inside an atom's w×h patch is among the cells it writes |
| VehicleGrid.PaintCellsEffect | src/shared/vehiclemodel.js:351-355 | writing an atom into cells puts that atom in exactly those cells and leaves every other entry of the hash as it was |
| VehicleGrid.PaintAllEffect | src/shared/vehiclemodel.js:342-359 | after every atom has written itself, each cell of each footprint has an entry, and every entry is an earlier one or an atom whose footprint covers that cell |
| VehicleGrid.LastPainted | src/shared/vehiclemodel.js:351-355 | the last atom written owns every cell of its footprint: later atoms overwrite earlier ones |
| Vehicles.ProductIsMul | src/shared/vehiclemodel.js:198-200 | the area an atom contributes, w·h, is the product of its width and height |
| Vehicles.AreaSumAppend | src/shared/vehiclemodel.js:198-200 | the `reduce` over two runs of atoms is the sum of the two reductions |
| Vehicles.LiveAreaAllAlive | src/shared/vehiclemodel.js:421-428 | with every atom alive the cells held are the whole area |
| Vehicles.LiveAreaUpdate | src/shared/vehiclemodel.js:146-150 | changing one atom's hp changes the cells held by that atom's share only |
| Vehicles.OneAtomChanged | src/shared/vehiclemodel.js:146-150 | when only one atom's hp changed, the cells held move by that atom's share only |
| Vehicles.AfterDamage | src/shared/vehiclemodel.js:136-150 | an atom at zero or below is left alone, Infinity stays Infinity, and a live finite hp drops by the damage and is clamped at zero |
| Vehicles.AfterDamageDead | src/shared/vehiclemodel.js:146-150 | a damaged atom is at zero exactly when it already was or the damage killed it, and a killed atom has hp exactly 0 |
| Vehicles.HeldLoss | src/shared/vehiclemodel.js:146-150 | the cells an atom stops holding under a hit are its whole area exactly when the hit kills it, and none otherwise |
| Vehicles.NonBaseMembers | src/shared/vehiclemodel.js:222-230 | the cleared list keeps exactly the thrusters that are not base thrusters |
| Vehicles.NonBaseSnoc | src/shared/vehiclemodel.js:222-230 | filtering one more thruster appends it exactly when it is not a base thruster |
| Vehicles.SpliceStep | src/shared/vehiclemodel.js:223-229 | one turn of the splice loop either removes a base thruster at the cursor or steps past a kept one, filtering one more of the original list |
| Vehicles.MadeAdded | src/shared/vehiclemodel.js:248-259 | base thrusters made one by one were appended to both lists, each keyed by its index in the gizmo list |
| Vehicles.BaseAddedNotDead | src/shared/basethruster.js:20-23 | a base thruster added by a rebuild never counts as dead and sits in the thruster list |
| Vehicles.StepsSnoc | src/shared/vehiclemodel.js:184-192 | one more call of a shared batch appends its detachments to the shared lists and, when it runs `_detachParts`, takes their whole area off and publishes their loss |
| Vehicles.SharedStep | src/shared/vehiclemodel.js:184-192 | the lists one more call returns are the shared lists extended by its detachments, and what it subtracts and publishes is the batch's next term |
| Vehicles.AreaSumPositive | src/shared/vehiclemodel.js:198-200 | atoms of positive area add up to a non-negative total that is zero only for no atoms |
| Vehicles.SharedLossExcess | src/shared/vehiclemodel.js:164-166 | with shared lists the count never drops by less than the detached atoms cover, and drops by exactly that only when no live call follows the first detachment |
| Vehicles.SharedListsOverCount | src/shared/vehiclemodel.js:164-166 | one atom killed by the first hit and a second hit that detaches nothing take that atom's cells off the count twice |
| Vehicles.DetachGizmo | src/shared/vehiclemodel.js:153-162 | a dead gizmo is marked detached; since none of its atoms is alive no atom changes and none is pushed |
| Vehicles.ZeroLiveAtoms | src/shared/vehiclemodel.js:155-160 | every live atom of the gizmo is set to zero and pushed, atoms already at zero are untouched, and nothing else is pushed |
| Vehicles.LiveOfMembers | src/client/vehiclemodelclient.js:134-139 | every atom above zero hp is among those collected |
| Vehicles.LiveOfArea | src/client/vehiclemodelclient.js:134-139 | the collected live atoms cover exactly the cells the live atoms hold |
| Vehicles.Zeroed | src/client/vehiclemodelclient.js:135-136 | after `explode` no atom is alive, and an atom already at zero keeps its hp |
| Vehicles.ZeroAtoms | src/client/vehiclemodelclient.js:134-139 | every atom's hp becomes its zeroed hp and the atoms that were alive are collected, in order |
| Vehicles.DetachAll | src/client/vehiclemodelclient.js:141-146 | every gizmo ends detached and exactly the gizmos that were attached are collected |
| Vehicles.TypeOutcome | src/shared/vehiclemodel.js:364-380 | a gizmo instance passes the `switch` exactly when its catalog type is core, thruster, or weapon after an earlier instance; an unknown model name is a TypeError |
| Vehicles.NewAtomsSnoc | src/shared/vehiclemodel.js:345-348 | one more new atom extends the atoms built for the placements by one |
| Vehicles.AreaSumSnoc | src/shared/vehiclemodel.js:357 | counting one more atom adds its w·h |
| Vehicles.VehicleModel.ValidAfterSetup | src/shared/vehiclemodel.js:248-259 | appending base thrusters, which own no atoms, keeps the ownership links inside the vehicle |
| Vehicles.VehicleModel.constructor | src/shared/vehiclemodel.js:14-40 | a new vehicle has no atoms, cells, gizmos or thrusters, a zero count, no core, and is neither alive nor loaded |
| Vehicles.VehicleModel.GetAtom | src/shared/vehiclemodel.js:53-55 | `getAtom` yields an atom exactly when the hash has an entry at i + 24·j, and then that entry |
| Vehicles.VehicleModel.AddGizmo | src/shared/vehiclemodel.js:217-220 | the gizmo is appended and its key is its index in the list |
| Vehicles.VehicleModel.ClearBaseThrusters | src/shared/vehiclemodel.js:222-230 | the thruster list loses exactly its base thrusters and keeps the others in order |
| Vehicles.VehicleModel.SetupThruster | src/shared/vehiclemodel.js:248-259 | one fresh attached base thruster with the given force is pushed onto the thrusters and added as a gizmo |
| Vehicles.VehicleModel.SetupBaseThrusters | src/shared/vehiclemodel.js:267-307 | eight fresh base thrusters, each with half the core's base force, are appended to both lists, and the vehicle stays valid |
| Vehicles.VehicleModel.UpdateThrusters | src/shared/vehiclemodel.js:310-314 | every thruster's torque is recomputed about the centre of mass |
| Vehicles.VehicleModel.DetachParts | src/shared/vehiclemodel.js:195-215 | the count drops by the detached atoms' area, the shape loss and then the thruster update are published, the base thrusters are rebuilt and every torque recomputed |
| Vehicles.VehicleModel.RebuildThrusters | src/shared/vehiclemodel.js:206-212 | the old base thrusters are removed, eight new ones appended and every torque recomputed |
| Vehicles.VehicleModel.DamageAtom | src/shared/vehiclemodel.js:145-162 | only the hit atom's hp changes, by `AfterDamage`; it joins the atom list exactly when it dies; its gizmo is detached and listed exactly when it was attached and is now dead |
| Vehicles.VehicleModel.ApplyDamageToAtom | src/shared/vehiclemodel.js:129-175 | an atom already at zero changes nothing; otherwise it takes the damage, and when either list is non-empty the count drops by the whole atom list's area and the loss is published |
| Vehicles.VehicleModel.ApplyDamageToAtoms | src/shared/vehiclemodel.js:178-192 | with shared lists the calls' detachments accumulate in order and the count drops by `SharedLoss`, each later live call counting the earlier detachments again |
| Vehicles.VehicleModel.BatchCall | src/shared/vehiclemodel.js:185-190 | one call of a shared batch keeps the batch's lists, count and events in step with its recorded steps |
| Vehicles.VehicleModel.ApplyDamageToAtomAlone | src/shared/vehiclemodel.js:129-175 | with its own fresh lists a call takes exactly the killed atom's cells off the count and keeps the count equal to the live area |
| Vehicles.VehicleModel.ApplyDamageToAtomsFresh | src/shared/vehiclemodel.js:178-192 | with fresh lists per call the count drops by exactly the detached atoms' area and stays equal to the live area |
| Vehicles.VehicleModel.ClearData | src/shared/vehiclemodel.js:316-328 | atoms, hash, gizmos, thrusters, core and count are all cleared and the vehicle is no longer loaded |
| Vehicles.VehicleModel.Spawn | src/shared/vehiclemodel.js:412-439 | every atom is back at max hp, the count is the whole area, every gizmo is reattached, the vehicle is alive and announced, and every torque is recomputed |
| Vehicles.VehicleModel.Revive | src/shared/vehiclemodel.js:430-438 | every gizmo is reattached, the vehicle is alive and announced, and every torque is recomputed |
| Vehicles.VehicleModel.ReattachGizmos | src/shared/vehiclemodel.js:431-433 | every gizmo ends attached |
| Vehicles.VehicleModel.RestoreAtoms | src/shared/vehiclemodel.js:422-428 | every atom is back at max hp and the count is the whole area, which is the live area when every max hp is positive |
| Vehicles.VehicleModel.Kill | src/shared/vehiclemodel.js:447-450 | the vehicle is no longer alive and the kill is published |
| Vehicles.VehicleModel.Dispose | src/shared/vehiclemodel.js:442-444 | the disposal is published |
| Vehicles.VehicleModel.Scrap | src/client/vehiclemodelclient.js:128-153 | exactly the atoms that were alive are zeroed and turned into scrap, in order, every attached gizmo is detached, and the scrap covers the counted cells when the count was kept |
| Vehicles.VehicleModel.Explode | src/client/vehiclemodelclient.js:123-154 | the vehicle is killed; with scrap asked for, the live atoms are zeroed and spawned as scrap and every gizmo detached, otherwise nothing else changes |
| Vehicles.VehicleModel.ReceiveHit | src/client/vehiclemodelclient.js:19-47 | a dead or dying vehicle or an empty list changes nothing; otherwise the batch runs with shared lists and scrap is spawned from every atom it detached |
| Vehicles.VehicleModel.PaintColumn | src/shared/vehiclemodel.js:352-354 | the row loop writes the atom into the column's cells |
| Vehicles.VehicleModel.PaintAtom | src/shared/vehiclemodel.js:351-355 | the nested loops write the atom into exactly its footprint |
| Vehicles.VehicleModel.AddAtomAt | src/shared/vehiclemodel.js:345-357 | one new atom is appended, written into the hash and its area counted |
| Vehicles.VehicleModel.ValidAfterAtoms | src/shared/vehiclemodel.js:342-359 | appending new unowned atoms and writing them into the hash keeps the vehicle valid |
| Vehicles.VehicleModel.LoadStep | src/shared/vehiclemodel.js:343-358 | one entry of the id array yields one new atom exactly when it is non-zero |
| Vehicles.VehicleModel.LoadAtoms | src/shared/vehiclemodel.js:341-359 | the atom loop passes exactly when every non-zero id is in the atom table; it builds one new atom per placement, paints the hash and counts the area, and an unknown id is a TypeError at its index |
| Vehicles.VehicleModel.ClaimAtom | src/shared/vehiclemodel.js:388 | the atom is appended to the gizmo, and claimed exactly when it had no gizmo; the vehicle stays valid |
| Vehicles.VehicleModel.ClaimRefused | src/shared/vehiclemodel.js:386-389 | a cell whose atom was already found makes the instance's atoms not distinct |
| Vehicles.VehicleModel.AtomsAt | src/shared/vehiclemodel.js:386-389 | the atoms an instance's cells name are found exactly when every cell has an entry, and are those entries in order |
| Vehicles.VehicleModel.AttachAtoms | src/shared/vehiclemodel.js:386-389 | the loop passes exactly when every cell holds an atom, no atom is named twice and none had a gizmo; the gizmo then owns them after its own |
| Vehicles.VehicleModel.AttachCell | src/shared/vehiclemodel.js:387-388 | one cell's atom is claimed, or the loop stops with an error showing the cells cannot all be claimed |
| Vehicles.VehicleModel.SelectGizmo | src/shared/vehiclemodel.js:362-380 | the `switch` builds a core that becomes `core`, or a thruster pushed onto the thrusters, or reuses the previous gizmo for a weapon, failing as `TypeOutcome` says |
| Vehicles.VehicleModel.AttachGizmo | src/shared/vehiclemodel.js:382-383 | the gizmo is attached and added with its index as key, and the vehicle is valid |
| Vehicles.VehicleModel.LoadGizmo | src/shared/vehiclemodel.js:362-390 | one instance is selected, attached and given its cells' atoms; it passes exactly when the type is known and the atoms can all be claimed |
| Vehicles.VehicleModel.LoadGizmos | src/shared/vehiclemodel.js:362-390 | when every instance loads, one gizmo is added per instance and the vehicle has a core exactly when it had one or some instance is a core |
| Vehicles.VehicleModel.FinishLoad | src/shared/vehiclemodel.js:392-408 | a vehicle without a core is refused unchanged; otherwise eight base thrusters are set up, torques recomputed, and the vehicle is loaded with both load events published |
| Vehicles.VehicleModel.LoadParts | src/shared/vehiclemodel.js:341-390 | the new atoms follow the old ones, one per placement, painted and counted, and the gizmos are loaded only when every atom was |
| Vehicles.VehicleModel.LoadFromData | src/shared/vehiclemodel.js:335-409 | a loaded vehicle is cleared first; on success the atoms are exactly the placements, the hash and count match them, eight base thrusters with half the base force end the gizmo list, and the vehicle is loaded; a failure leaves it unloaded and valid |
| VehicleControllers.Repeat | src/shared/vehiclecontroller.js:45-48 | `n` queued spawn callbacks produce exactly `n` copies of the event, and nothing else |
| VehicleControllers.VehicleController.constructor | src/shared/vehiclecontroller.js:8-17 | the controller starts bound to its model with both deferreds unresolved, no callback waiting and not disposed |
| VehicleControllers.VehicleController.IsLoaded | src/shared/vehiclecontroller.js:26-28 | the answer is the model's own loaded flag |
| VehicleControllers.VehicleController.IsAlive | src/shared/vehiclecontroller.js:30-32 | the answer is the model's own alive flag |
| VehicleControllers.VehicleController.Spawn | src/shared/vehiclecontroller.js:35-51 | succeeds iff the vehicle is dead; an alive vehicle throws "already spawned" and nothing changes; otherwise one spawn callback is queued, ready to run when the load deferred is resolved and pending on it otherwise |
| VehicleControllers.VehicleController.RunCallbacks | src/shared/vehiclecontroller.js:45-47 | running the ready callbacks spawns the model once per callback, logs one spawn event each and resolves the spawn deferred; with none ready nothing changes |
| VehicleControllers.VehicleController.Kill | src/shared/vehiclecontroller.js:54-71 | succeeds iff the vehicle is alive, else throws "already dead" with nothing changed; it then explodes the model (zeroing hp, detaching every gizmo and emitting scrap when asked) or just kills it, and renews the spawn deferred |
| VehicleControllers.VehicleController.Unload | src/shared/vehiclecontroller.js:74-95 | succeeds iff loaded and dead, with "not loaded" checked before "still spawned"; on success the model's data is cleared (no atoms, gizmos or core, zero cells) and the load deferred is renewed |
| VehicleControllers.VehicleController.Load | src/shared/vehiclecontroller.js:98-108 | refuses when already loaded with nothing changed; a failed load leaves the deferred unresolved; a successful one loads the model and resolves the deferred, moving every pending spawn callback to ready |
| VehicleControllers.VehicleController.Dispose | src/shared/vehiclecontroller.js:110-112 | the controller is marked disposed |
| VehicleControllers.SpawnRepeatedly | src/shared/vehiclecontroller.js:45-47 | spawning `n > 0` times leaves the model alive with every atom at full hp, every gizmo attached and `n` spawn events logged |
| VehicleControllers.UnloadThenSpawn | src/shared/vehiclecontroller.js:94 | after an unload, a spawn request succeeds but only waits on the new load deferred: nothing becomes ready until the next load |
| CollisionEvents.ArgumentMasksCons | src/shared/box2dwebcollisionmanager.js:409-413 | an argument segment known to both tables ORs its A flag into the A mask and its B flag into the B mask |
| CollisionEvents.CreateFromName | src/shared/box2dwebcollisionmanager.js:389-406 | a created event keeps the given name; the result is "not a collision event" (`false`) exactly when the first segment is not `collision`, there is no second segment, or the condition name is unknown |
| CollisionEvents.FlagTables | src/shared/box2dwebcollisionmanager.js:359-376 | the A and B argument tables know the same names, and a B flag is the A flag with the world normal for A replaced by the one for B |
| CollisionEvents.ArgumentMasksThrow | src/shared/box2dwebcollisionmanager.js:409-418 | the argument loop throws exactly when some segment names no argument flag |
| CollisionEvents.ArgumentMasksContent | src/shared/box2dwebcollisionmanager.js:409-418 | when the loop does not throw, the A mask holds exactly the flags the segments name, and the B mask is the A mask with the world normal swapped |
| CollisionEvents.CreatedMasks | src/shared/box2dwebcollisionmanager.js:389-421 | a created event has a non-empty condition and masks that differ only in the world normal; `createFromName` throws exactly when the prefix and condition are valid but some argument segment is unknown |
| CollisionEvents.FiredCondition | src/shared/box2dwebcollisionmanager.js:563-566 | the condition mask as written holds one flag: BEGIN iff the contact began, END iff it ended without beginning, CONTINUE iff neither |
| CollisionEvents.BeganAndEnded | src/shared/box2dwebcollisionmanager.js:563-566 | for a contact that began and ended in the same step, the mask as written shares no flag with END or CONTINUE but still matches ANY |
| CollisionEvents.EndMissedWhenBeganToo | src/shared/box2dwebcollisionmanager.js:563-570 | for a contact that began and ended in the same step, an event listening only for `end` is filtered out under the mask as written |
| CollisionEvents.IntendedCondition | src/shared/box2dwebcollisionmanager.js:563-566 | the intended mask is the OR of the three clauses: BEGIN iff began, END iff ended, CONTINUE iff both or neither, and never empty |
| CollisionEvents.EndFiresWhenEnded | src/shared/box2dwebcollisionmanager.js:563-570 | under the intended mask, every event listening for `end` passes the filter whenever the contact ended |
| CollisionEvents.IntendedAgreesUnlessBoth | src/shared/box2dwebcollisionmanager.js:563-566 | the intended and the written masks are equal exactly when the contact did not both begin and end in the step |
| CollisionEvents.FilterMembers | src/shared/box2dwebcollisionmanager.js:437-452 | `filterEvents` keeps exactly the events whose condition mask shares a flag with the given mask |
| CollisionEvents.FilterAppend | src/shared/box2dwebcollisionmanager.js:445-449 | filtering keeps the original order: the filter of a concatenation is the concatenation of the filters |
| CollisionEvents.ArgumentMaskIsUnion | src/shared/box2dwebcollisionmanager.js:454-466 | `getArgumentMask` holds exactly the flags that some event asks for in that role |
| CollisionEvents.FirstNamed | src/shared/box2dwebsimulation.js:55-62 | `findEventByName` finds the first event carrying the name, or reports that no event carries it |
| CollisionEvents.CreatedFromSegments | src/shared/box2dwebcollisionmanager.js:389-421 | a name made of `collision`, a known condition and known arguments parses to the event with that condition and those masks |
| CollisionEvents.RegisterKeepsNamesUnique | src/shared/box2dwebcollisionmanager.js:519-531 | registering never adds a second event of a name already present; it appends only the event `createFromName` made; it throws exactly when the name is new and an argument segment is unknown |
| CollisionEvents.RegisterOne | src/shared/box2dwebcollisionmanager.js:519-531 | registering one valid collision event name on an empty list registers exactly that event |
| CollisionEvents.RegisterAllSnoc | src/shared/physics.js:157-160 | one more name registers as a single registration does, unless an earlier name already threw |
| CollisionEvents.RegisterAllRegisters | src/shared/physics.js:157-160 | a list of registrations keeps names unique and adds only events parsed from the listed names; when nothing threw, every listed valid collision event name is registered |
| CollisionEvents.UnregisterAllSnoc | src/shared/physics.js:176-179 | one more name is unregistered from what the earlier names left |
| CollisionEvents.UnregisterRemoves | src/shared/box2dwebcollisionmanager.js:533-544 | `unregisterEvent` returns true iff an event of that name was registered, and leaves exactly the events of the other names |
| CollisionEvents.UnregisterAllRemoves | src/shared/physics.js:176-179 | unregistering a list leaves exactly the events whose names are not listed, still uniquely named |
| VehicleEvents.DamageEventSplits | src/shared/vehiclephysics.js:72 | the damage event's name splits on `:` back into its five segments |
| VehicleEvents.DamageEventMasks | src/shared/vehiclephysics.js:72 | the damage event asks for the average world point, the role's own world normal and the average normal impulse |
| VehicleEvents.DamageSegmentsParse | src/shared/box2dwebcollisionmanager.js:389-421 | any name with the damage event's segments parses to a `begin` event with those masks |
| VehicleEvents.DamageEventParses | src/shared/vehiclephysics.js:72 | the event the damage handler subscribes to fires when a contact begins and gets the world point, that role's normal and the average normal impulse |
| CollisionManagers.PairKey | src/shared/box2dwebcollisionmanager.js:473-477 | a pair's key is its two ids in ascending order, the same whichever order they come in |
| CollisionManagers.ComputeAll | src/shared/box2dwebcollisionmanager.js:301-305 | every contact of a record, and only those, derives the asked-for arguments, in order |
| CollisionManagers.ContactReports | src/shared/box2dwebcollisionmanager.js:330-340 | one report per contact, in order, each carrying that party's own normal and, as written, the contact's `tangentNormalImpulse` as average tangent impulse |
| CollisionManagers.Publications | src/shared/box2dwebcollisionmanager.js:588-590 | one handler call per matching event, in order, each to that side's actor with the same report |
| CollisionManagers.MatchingEvents | src/shared/box2dwebcollisionmanager.js:563-570 | an event fires for a record iff it is registered and its condition holds the single fired flag: `begin` if the pair began, else `end` if it ended, else `continue` |
| CollisionManagers.FireOne | src/shared/box2dwebcollisionmanager.js:572-598 | firing one record keeps its proxies, takes no contact record from the pool and makes exactly one handler call per matching event |
| CollisionManagers.PublicationsAppend | src/shared/box2dwebcollisionmanager.js:586-598 | in A's calls followed by B's calls, A's event `i` is at position `i` and B's event `i` right after all of A's |
| CollisionManagers.FireOnePublished | src/shared/box2dwebcollisionmanager.js:577-598 | the calls of one record are A's then B's, each with the report built from the contacts after their arguments are derived |
| CollisionManagers.FireOnePublishes | src/shared/box2dwebcollisionmanager.js:586-598 | A's matching events go first, in registration order, to A's actor with a report naming B as the other party; then B's to B's actor naming A; each report has one contact report per contact |
| CollisionManagers.FireOneComputes | src/shared/box2dwebcollisionmanager.js:572-598 | with no matching event the record is skipped unchanged; otherwise its contacts derive exactly the flags some matching event asks for in its role, and each side with events stores its report |
| CollisionManagers.FireAllFrames | src/shared/box2dwebcollisionmanager.js:559-599 | firing keeps every record's proxies, leaves a record it does not reach unchanged, and takes nothing from the contact pool |
| CollisionManagers.FireAllSnoc | src/shared/box2dwebcollisionmanager.js:559-599 | one more record fires after the records before it, as one loop pass says |
| CollisionManagers.FireRecords | src/shared/box2dwebcollisionmanager.js:552-600 | the loop over the records, in key order, computes exactly `FireAll` |
| CollisionManagers.ClearOne | src/shared/box2dwebcollisionmanager.js:266-290 | clearing a record returns the record, its contacts in order, and each stored report to their pools |
| CollisionManagers.ClearAllReturnsEverything | src/shared/box2dweblisteningcollisionmanager.js:25-31 | clearing every record grows the record pool by exactly their number and returns every contact record, in key order |
| CollisionManagers.ClearAllSnoc | src/shared/box2dweblisteningcollisionmanager.js:25-31 | clearing one more record clears it after the ones before |
| CollisionManagers.Allocated | src/shared/box2dwebcollisionmanager.js:53-55 | `allocate` hands out the most recently freed record when the pool has one |
| CollisionManagers.Released | src/shared/box2dwebcollisionmanager.js:53-55 | `allocate` pops exactly the record it hands out, and an empty pool stays empty |
| CollisionManagers.FireAllWellKeyed | src/shared/box2dwebcollisionmanager.js:473-477 | firing keeps every record under the key made of its proxies' ids |
| CollisionManagers.CollisionManager.constructor | src/shared/box2dwebcollisionmanager.js:429-435 | a new manager has no records, empty pools and no handler calls |
| CollisionManagers.CollisionManager.GetCollisionInfo | src/shared/box2dwebcollisionmanager.js:471-515 | an existing record is returned under the canonical key; otherwise a record is made only when both proxies exist and one has an event, with the gather mask the union of A's role-A and B's role-B masks, and nothing else changes |
| CollisionManagers.CollisionManager.RegisterEvent | src/shared/box2dwebcollisionmanager.js:519-531 | the proxy's events become what one registration gives: unchanged for a known or non-collision name, a throw for an unknown argument, else the parsed event appended; a missing proxy fails |
| CollisionManagers.CollisionManager.UnregisterEvent | src/shared/box2dwebcollisionmanager.js:533-544 | the first event of that name is removed from the proxy, and the answer is whether there was one; a missing proxy fails |
| CollisionManagers.CollisionManager.FireEvents | src/shared/box2dwebcollisionmanager.js:552-600 | the records, pools and handler calls become what firing every record in key order gives |
| CollisionManagers.CollisionManager.Clear | src/shared/box2dweblisteningcollisionmanager.js:25-31 | every record is returned to its pool, in key order, and no record is left |
| CollisionManagers.CollisionManager.FireCollisionEvents | src/shared/box2dweblisteningcollisionmanager.js:35-39 | the step's handler calls are made from this step's records, and then every record is cleared, so none survives into the next step |
| CollisionManagers.CollisionManager.AddContactInfo | src/shared/box2dwebcollisionmanager.js:296-299 | the most recently freed contact record (or a new one) gathers what the record's mask asks for and is appended to its contacts |
| CollisionManagers.ContactListener.constructor | src/shared/box2dwebcontactlistener.js:10-12 | the listener forwards to the given manager |
| CollisionManagers.ContactListener.BeginContact | src/shared/box2dwebcontactlistener.js:14-22 | the pair gets a record iff it had one or the manager is interested, that record is marked begun, and no other record changes |
| CollisionManagers.ContactListener.EndContact | src/shared/box2dwebcontactlistener.js:24-32 | the pair gets a record iff it had one or the manager is interested, that record is marked ended, and no other record changes |
| CollisionManagers.ContactListener.PostSolve | src/shared/box2dwebcontactlistener.js:34-47 | a contact, flipped iff the second body's id is the smaller, is appended only to a record whose gather mask is not empty; no other record changes |
| Contacts.GatherCopiesWhatIsAsked | src/shared/box2dwebcollisionmanager.js:96-124 | gathering copies the manifold only when a world quantity is asked for, the live slots of each impulse kind only when that kind is asked for, and leaves every other field, and the slots past the point count, as the recycled record had them |
| Contacts.NormalsOpposite | src/shared/box2dwebcollisionmanager.js:162-178 | A's and B's normals are opposite, and A's is the manifold normal, negated when the contact is flipped |
| Contacts.ComputeOnlyWhatIsAsked | src/shared/box2dwebcollisionmanager.js:129-202 | deriving writes only the quantities the mask asks for and leaves the gathered manifold and impulses alone |
| Contacts.SinglePointAverages | src/shared/box2dwebcollisionmanager.js:143-188 | for a one-point contact the average point is that point and the average normal impulse is its impulse |
| Contacts.ContactReportAsWritten | src/shared/box2dwebcollisionmanager.js:228-244 | as written, a report's average tangent impulse is the record's `tangentNormalImpulse` |
| Contacts.ReportsPerRole | src/shared/box2dwebcollisionmanager.js:228-244 | with the intended field, the two reports of a contact differ only in the normal, and each carries the derived averages, the tangent one included |
| Contacts.AsWrittenTangentAlwaysZero | src/shared/box2dwebcollisionmanager.js:228-244 | as written, for any record whose `tangentNormalImpulse` is still 0, the report's average tangent impulse is 0 after any gather and derive |
| Contacts.TangentAverageLost | src/shared/box2dwebcollisionmanager.js:191-241 | a one-point contact with tangent impulse 2 derives an average of 2; the report as written says 0 and the corrected report says 2 |
| Simulations.IndexOf | src/shared/box2dwebsimulation.js:47 | `indexOf` finds the first position holding the event, and reports none exactly when the event is not in the list |
| Simulations.ActorProxy.constructor | src/shared/box2dwebsimulation.js:29-40 | a proxy keeps its id and actor and starts with no collision events |
| Simulations.ActorProxy.AddEvent | src/shared/box2dwebsimulation.js:42-44 | the event is appended to the proxy's list |
| Simulations.ActorProxy.RemoveEvent | src/shared/box2dwebsimulation.js:46-53 | answers true iff the event was listed; then exactly its first occurrence is spliced out, otherwise the list is unchanged; either way one copy of it leaves the multiset |
| Simulations.ActorProxy.FindEventByName | src/shared/box2dwebsimulation.js:55-62 | finds an event iff one carries the name, and then it is the first such event |
| Simulations.Simulation.constructor | src/shared/box2dwebsimulation.js:66-85 | a new simulation has no proxies and hands out ids from 0 |
| Simulations.Simulation.AddActor | src/shared/box2dwebsimulation.js:87-109 | the actor gets the next id, never handed out before, and a new proxy with no events is stored under it; no other proxy changes |
| Simulations.Simulation.RemoveActor | src/shared/box2dwebsimulation.js:111-117 | the id's proxy is deleted; removing an id with no proxy fails on the missing body after the delete |
| Physics.Insert | src/shared/physics.js:155-156 | inserting a name adds exactly one copy of it to the list |
| Physics.Sort | src/shared/physics.js:155-156 | sorting keeps every name, each as often as before |
| Physics.LeTotal | src/shared/physics.js:155-156 | the default string order compares any two names |
| Physics.LeTransitive | src/shared/physics.js:155-156 | the default string order is transitive |
| Physics.LeAntisymmetric | src/shared/physics.js:155-156 | two names that each sort no later than the other are equal |
| Physics.InsertSorted | src/shared/physics.js:155-156 | inserting into a sorted list keeps it sorted |
| Physics.SortSorted | src/shared/physics.js:155-156 | `sort` orders the names by the default string order and keeps each of them |
| Physics.SortedArrayDiff | src/shared/physics.js:124-142 | throws iff `longer` has fewer entries than `shorter`; otherwise the result is refilled from empty with the elements the left-to-right match leaves over, in order |
| Physics.UnmatchedIsDifference | src/shared/physics.js:133-139 | for a sorted sub-multiset `shorter` of a sorted `longer`, the left-over elements are exactly `longer` minus `shorter` |
| Physics.SortedDiffIsAdded | src/shared/physics.js:155-157 | when the old names are a sub-multiset of the new ones, sorting both and diffing gives exactly the names that were added |
| PhysicsComponents.Added | src/shared/physics.js:145-162 | the names `subscribe` registers: the diff's throw exactly when the emitter lost names |
| PhysicsComponents.Removed | src/shared/physics.js:164-181 | the names `unsubscribe` unregisters: the diff's throw exactly when the emitter gained names |
| PhysicsComponents.AddedIsDifference | src/shared/physics.js:145-162 | when the emitter only gained names, `subscribe` does not throw and hands over exactly the names that appeared |
| PhysicsComponents.RemovedIsDifference | src/shared/physics.js:164-181 | when the emitter only lost names, `unsubscribe` does not throw and takes back exactly the names that disappeared |
| PhysicsComponents.RegisterNames | src/shared/physics.js:158-160 | the register loop leaves the proxy's events and outcome as registering the names in turn says |
| PhysicsComponents.UnregisterNames | src/shared/physics.js:177-179 | the unregister loop leaves the proxy's events as unregistering the names in turn says |
| PhysicsComponents.AddedFirst | src/shared/physics.js:145-162 | the first handler on a component with none hands over exactly its name |
| PhysicsComponents.PhysicsComponent.constructor | src/shared/physics.js:6-31 | a new component has id -1, a dirty shape, no simulation and no handlers |
| PhysicsComponents.PhysicsComponent.UpdateShape | src/shared/physics.js:89-91 | the shape is marked dirty |
| PhysicsComponents.PhysicsComponent.SetSimulation | src/shared/physics.js:60-63 | the component remembers the simulation and takes the fresh id it hands out, under which a new empty proxy for this actor now sits |
| PhysicsComponents.PhysicsComponent.Subscribe | src/shared/physics.js:145-162 | the names that appeared are registered in sorted order until one throws; nothing is registered when the count did not change; a missing proxy fails; the simulation's map is not touched |
| PhysicsComponents.PhysicsComponent.Unsubscribe | src/shared/physics.js:164-181 | the names that disappeared are unregistered in sorted order; nothing happens when the count did not change; a missing proxy fails |
| PhysicsComponents.PhysicsComponent.Dispose | src/shared/physics.js:65-68 | every name is unregistered and then the actor's proxy is removed from the simulation; with no simulation it fails |
| VehiclePhysics.WithHandler | src/shared/vehiclephysics.js:71-75 | after adding a handler the emitter has handlers for the new name and for every name it had, and for no other |
| VehiclePhysics.SetSimulation | src/shared/vehiclephysics.js:67-76 | the vehicle is added to the simulation and subscribes its damage handler; a vehicle with no other handlers ends with exactly the parsed damage event on its new proxy |
| VehiclePhysics.AttachHandler | src/shared/vehiclephysics.js:67-76 | adding the actor and then subscribing one handler: with no earlier handlers, exactly that name's parsed event is registered on the fresh proxy |
| VehiclePhysics.FirstStrongestUnique | src/shared/vehiclephysics.js:106-112 | the first contact with the largest average normal impulse is unique |
| VehiclePhysics.Strongest | src/shared/vehiclephysics.js:106-112 | the loop selects the first contact with the largest average normal impulse, and nothing exactly when there is no contact |
| VehiclePhysics.Judge | src/shared/vehiclephysics.js:100-117 | reports from scrap are ignored; with no contact the handler fails; a strongest impulse below 1 does nothing; otherwise that impulse is the damage |
| VehiclePhysics.HarvestedAtoms | src/shared/damagecalculator.js:290-302 | every atom a calculation harvests is one the live cells hold, with a non-zero damage |
| VehiclePhysics.CollisionDamage.constructor | src/shared/vehiclephysics.js:85-87 | the handler's calculator runs exactly its one radial policy |
| VehiclePhysics.CollisionDamage.Handle | src/shared/vehiclephysics.js:97-150 | a damaging verdict sets the radius to half the square root of the damage, runs the calculator at the point half a cell back along the normal, and lowers the cell count as the shared-list `receiveHit` does; every other verdict changes nothing, and no contact is a TypeError |
| VehiclePhysics.CollisionDamage.Strike | src/shared/vehiclephysics.js:129-146 | the hits and damages the calculator finds go unchanged to `receiveHit`, which lowers the cell count by the shared-list loss |
| VehiclePhysics.CollisionDamage.Calculate | src/shared/vehiclephysics.js:129-141 | the policy's radius is set and the calculator harvests the live cells of the policy's rect; every atom found is one of the vehicle's, with a non-zero damage |
| VehiclePhysics.DrivenMembers | src/shared/vehiclephysics.js:162-164 | a thruster pushes exactly when it is attached and its coefficient is positive, with that coefficient |
| VehiclePhysics.ApplyThrusterForces | src/shared/vehiclephysics.js:157-188 | the loop applies, in list order, exactly the forces of the attached thrusters with a positive coefficient, each scaled by its coefficient |
| ThrusterAIUtils.States | src/shared/thrusteraiutils.js:38-43 | one reading per thruster, in list order: attachment, local force, torque and coefficient |
| ThrusterAIUtils.Clamp01 | src/shared/thrusteraiutils.js:19-23 | the result lies in [0, 1] and equals the input when the input already does |
| ThrusterAIUtils.Candidate | src/shared/thrusteraiutils.js:55-96 | a thruster whose weighted line is a point proposes nothing; a proposal's coefficient lies in [0, 1], differs from the current one by at least 1e-16, and leaves a non-negative squared error |
| ThrusterAIUtils.Closest | src/shared/thrusteraiutils.js:50-103 | the chosen index is a thruster of the list |
| ThrusterAIUtils.ClosestIsFirstMinimum | src/shared/thrusteraiutils.js:47-114 | the scan picks a thruster iff some thruster proposes a move; the pick's proposal has the smallest error of all, and every earlier proposal has a strictly larger error, so ties go to the earliest |
| ThrusterAIUtils.CurrentTotal | src/shared/thrusteraiutils.js:35-43 | the first pass sums every thruster's weighted contribution at its current coefficient |
| ThrusterAIUtils.FindClosest | src/shared/thrusteraiutils.js:47-103 | the second pass, in list order, finds exactly the pick of the scan |
| ThrusterAIUtils.IterateOnce | src/shared/thrusteraiutils.js:25-115 | an empty list converges; otherwise the picked thruster, and no other, gets its proposed coefficient and the step answers false, and with no pick nothing changes and it answers true; a changed coefficient lies in [0, 1] |
| ThrusterAIUtils.TargetTorque | src/shared/thrusteraiutils.js:131-235 | the direction follows the target angle's sign and is kept at zero; the aim is frozen iff the angle is below 0.01 and one step can stop the spin, with the cancelling torque and no braking distance; otherwise the torque is a capacity or the optimal torque, undefined iff the angle is zero, and a braking distance only appears while already turning towards the target |
| ThrusterAIUtils.TargetTorqueResult.constructor | src/shared/thrusteraiutils.js:119-125 | the reused result object starts at angle 0, no braking, counter-clockwise, not frozen, torque 0 |
| ThrusterAIUtils.TargetTorqueResult.FindTargetTorque | src/shared/thrusteraiutils.js:131-235 | the result object is overwritten with the aim `TargetTorque` gives for these inputs and the direction it held before |
| MouseLookThrusterAIs.EnvelopeOf | src/shared/mouselookthrusterai.js:50-60 | each of the six capacities summed over the thrusters is non-negative |
| MouseLookThrusterAIs.EnvelopeSpansNet | src/shared/mouselookthrusterai.js:51-59 | forward minus backward, right minus left and counter-clockwise minus clockwise capacity equal the net force and torque of the attached thrusters, so the split into positive and negative parts loses nothing |
| MouseLookThrusterAIs.EnvelopeSkipsDetached | src/shared/mouselookthrusterai.js:51 | a detached thruster adds nothing to any capacity |
| MouseLookThrusterAIs.ThrustTargetsWithinEnvelope | src/shared/mouselookthrusterai.js:100-108 | with no thrust power both targets are 0; otherwise the longitudinal target lies between minus the backward and the forward capacity, and the lateral one between minus the left and the right capacity |
| MouseLookThrusterAIs.AttachedOf | src/shared/mouselookthrusterai.js:112-115 | the filtered list holds exactly the attached thrusters of the list and is no longer than it |
| MouseLookThrusterAIs.ResetAndFilter | src/shared/mouselookthrusterai.js:110-115 | every thruster's coefficient becomes 0 and the attached ones, as they stood, are returned |
| MouseLookThrusterAIs.AllocatorStep | src/shared/mouselookthrusterai.js:122-126 | only attached thrusters change, each to a coefficient in [0, 1]; with an undefined torque the step converges and changes nothing |
| MouseLookThrusterAIs.RunAllocator | src/shared/mouselookthrusterai.js:119-129 | the loop runs at most twice the number of thrusters; coefficients stay in [0, 1], detached thrusters stay at 0, and an undefined torque leaves every coefficient as it was |
| MouseLookThrusterAIs.MouseLookThrusterAI.constructor | src/shared/mouselookthrusterai.js:11-26 | no model, no subscription, all six capacities 0, weights 1, 1 and 7 |
| MouseLookThrusterAIs.MouseLookThrusterAI.CalculateThrusterValues | src/shared/mouselookthrusterai.js:42-61 | the capacities are reset; with a model they become the envelope of its current thrusters, without one the call throws and leaves them at 0 |
| MouseLookThrusterAIs.MouseLookThrusterAI.AddThruster | src/shared/mouselookthrusterai.js:51-59 | one thruster's positive and negative force and torque parts are added to the capacities, as the envelope fold does |
| MouseLookThrusterAIs.MouseLookThrusterAI.Start | src/shared/mouselookthrusterai.js:30-40 | the model is taken and the refresh subscribed; a loaded model's envelope is computed at once, an unloaded one leaves the capacities as they were; the weights are kept |
| MouseLookThrusterAIs.MouseLookThrusterAI.Dispose | src/shared/thrusterai.js:13-15 | the component's subscriptions on the model are dropped |
| MouseLookThrusterAIs.MouseLookThrusterAI.Notify | src/shared/mouselookthrusterai.js:34-35 | while subscribed, any 'gizmos:load' or 'thrusters:update' event leaves the envelope of the model's current thrusters; with neither, or unsubscribed, the capacities are unchanged |
| MouseLookThrusterAIs.MouseLookThrusterAI.SetThrustersFromInput | src/shared/mouselookthrusterai.js:68-130 | the shared aim becomes `TargetTorque` of the turn against the clockwise and counter-clockwise capacities; without a model the filter throws; otherwise the allocator runs at most twice the number of thrusters, every coefficient ends in [0, 1], detached thrusters end at 0, and with an undefined torque every thruster ends at 0 |
| ThrusterAIs.ForwardCoeff | src/shared/thrusterai.js:22 | the coefficient is 1 exactly when thrust is asked for and the thruster's angle is 0, and 0 otherwise |
| ThrusterAIs.ThrusterAI.constructor | src/shared/thrusterai.js:2-4 | a new component has no thruster list |
| ThrusterAIs.ThrusterAI.Start | src/shared/thrusterai.js:9-11 | the component takes the entity model's thruster list |
| ThrusterAIs.ThrusterAI.SetThrustersFromInput | src/shared/thrusterai.js:17-24 | without a list the loop throws; otherwise every thruster of the model's current list gets `ForwardCoeff` of the thrust power and its own angle |
| Junkyards.RemainingMembers | src/shared/junkyard.js:22-31 | a required key is still missing after the scan iff it is required and was not among the document's keys |
| Junkyards.ExtrasMembers | src/shared/junkyard.js:24-31 | a key is reported as extra iff the document has it and it is not one of 'manifest', 'assets' and 'gizmos' |
| Junkyards.IndexOf | src/shared/junkyard.js:25-26 | the index is -1 exactly when the key is absent, and otherwise a position holding the key |
| Junkyards.RemainingStep | src/shared/junkyard.js:25-29 | splicing a found key out of the distinct required keys still missing leaves what is missing once that key has been seen too |
| Junkyards.CheckPassIff | src/shared/junkyard.js:21-40 | the check passes iff the document's keys are exactly 'manifest', 'assets' and 'gizmos' |
| Junkyards.CheckStep | src/shared/junkyard.js:24-31 | one key of the filter either splices itself out of the missing list or is appended to the extras, never both |
| Junkyards.Junkyard.constructor | src/shared/junkyard.js:8-10 | a new catalog is empty |
| Junkyards.Junkyard.Clear | src/shared/junkyard.js:12-14 | every entry is dropped |
| Junkyards.Junkyard.Lookup | src/shared/junkyard.js:16-18 | an entry is found iff the name is in the catalog, and it is that name's data |
| Junkyards.Junkyard.CheckJSONData | src/shared/junkyard.js:21-40 | the scan throws about the missing keys, in required order, when any is missing, else about the extra keys, in document order, when any is present, and passes otherwise |
| Junkyards.Junkyard.AddGizmo | src/shared/junkyard.js:51-55 | the entry is stored only when the name is not yet in the catalog; existing entries are kept |
| Junkyards.Junkyard.LoadJSONData | src/shared/junkyard.js:42-49 | every gizmo entry is added in key order, as `Loaded` folds them |
| Junkyards.Added | src/shared/junkyard.js:51-55 | the name is in the catalog afterwards, the names grow by at most that one, and no existing entry changes |
| Junkyards.LoadFirstWins | src/shared/junkyard.js:42-55 | loading never overwrites: the names are the old ones plus the loaded ones, an old name keeps its entry and a new name gets the data of its first occurrence |
| ComponentSystem.Registry.constructor | src/shared/componentsystem.js:21 | the registry starts empty |
| ComponentSystem.Registry.RegisterComponent | src/shared/componentsystem.js:175-199 | a taken name is ignored without error; a constructor that does not extend Component is refused, then a class whose `__propertyName__` is not a string; otherwise the name is bound to the class and nothing else changes |
| ComponentSystem.Component.constructor | src/shared/componentsystem.js:148-151 | a new component is not yet attached and not disposed |
| ComponentSystem.TrimStart | src/shared/componentsystem.js:40 | leading whitespace is removed: the result is no longer, starts with no whitespace, and keeps only characters of the input |
| ComponentSystem.TrimEnd | src/shared/componentsystem.js:40 | trailing whitespace is removed: the result is no longer, ends with no whitespace, and keeps only characters of the input |
| ComponentSystem.SplitList | src/shared/componentsystem.js:55-56 | a comma-separated string gives one id per comma-separated piece, none containing a comma |
| ComponentSystem.InitsThenStarts | src/shared/componentsystem.js:102-119 | the first loop calls `init` of exactly the added components that have one, the second calls `start` of exactly those that have one |
| ComponentSystem.PlanErrors | src/shared/componentsystem.js:64-100 | ids that are empty or name registered single-instance components never make the call throw |
| ComponentSystem.PlanStuck | src/shared/componentsystem.js:72 | once an id throws, the later ids change nothing |
| ComponentSystem.PlanKeepsShape | src/shared/componentsystem.js:84-100 | a property name already taken keeps its kind, single instance or array, and every added id was asked for and is registered |
| ComponentSystem.Entity.constructor | src/shared/componentsystem.js:44-46 | a new entity has no properties, no components and no hook calls |
| ComponentSystem.Entity.AddComponent | src/shared/componentsystem.js:48-122 | the ids come from the arguments or the split string; the components added are those `PlanAll` decides, each fresh and attached and built from its registered class, placed on the properties in order; on success every `init` runs before every `start` and the new components are appended, while on a throw the ones added before it stay on their properties, initialised but never started nor appended |
| ComponentSystem.Entity.AddAll | src/shared/componentsystem.js:62-111 | the first loop adds exactly the components `PlanAll` decides, stops at the first throw with its message, and logs their `init` calls in order |
| ComponentSystem.Entity.StartAll | src/shared/componentsystem.js:113-119 | every new component with a `start` is started, in order, and nothing else changes |
| ComponentSystem.Entity.AddOne | src/shared/componentsystem.js:66-110 | an empty id is skipped; an unknown id throws 'not found'; an allow-multiple component starts an array or is pushed onto one, and throws when its name holds a single instance; a single-instance component is dropped when its name is taken; an added component is fresh, attached and initialised |
| ComponentSystem.Entity.Enable | src/shared/componentsystem.js:125-129 | `enable` is called on every component, in order |
| ComponentSystem.Entity.Disable | src/shared/componentsystem.js:132-136 | `disable` is called on every component, in order |
| ComponentSystem.Entity.Dispose | src/shared/componentsystem.js:139-146 | `dispose` is called, in order, on each component not yet disposed, and every component ends disposed |
| ComponentSystem.EnableHooks | src/shared/componentsystem.js:126-128 | one `enable` call per component, position by position |
| ComponentSystem.DisableHooks | src/shared/componentsystem.js:133-135 | one `disable` call per component, position by position |
| ComponentSystem.DisposeHooksSkipDone | src/shared/componentsystem.js:141-144 | only components not yet disposed get a `dispose` call, and none is called when all were disposed already |
| ComponentSystem.DisposeTwice | src/shared/componentsystem.js:139-146 | disposing twice calls each component's `dispose` at most once: the second call adds no hook |
| ComponentSystem.CreateEntity | src/shared/componentsystem.js:201-207 | a fresh entity; with no arguments it is empty, otherwise its components and outcome are the ones `addComponent` decides from an empty entity |
| InputControllers.KeyAlias | src/client/inputcontroller.js:9-34 | a key code's alias, when it has one, is a non-empty name |
| InputControllers.MouseAlias | src/client/inputcontroller.js:36-40 | a mouse button's alias, when it has one, is a non-empty name |
| InputControllers.ToLower | src/client/inputcontroller.js:79 | lower-casing keeps the length and maps exactly the upper-case letters to their lower-case forms |
| InputControllers.ToLowerIdempotent | src/client/inputcontroller.js:274-275 | lower-casing an already lower-cased command name changes nothing |
| InputControllers.NatToString | src/client/inputcontroller.js:57 | the counter's decimal text is non-empty and made of digits |
| InputControllers.BindKeysSound | src/client/inputcontroller.js:92-111 | binding default keys never changes an existing truthy binding, only binds known lower-cased key names to the command, and on success binds every key given |
| InputControllers.BindKeysKeeps | src/client/inputcontroller.js:103-110 | a key already bound to the command stays bound to it while further keys are bound |
| InputControllers.RegisterTwiceFails | src/client/inputcontroller.js:82-86 | a command registered with at least one key is refused when registered again, and the bindings stay as they were |
| InputControllers.UnregisterThenRegister | src/client/inputcontroller.js:114-121 | after unregistering a command no key is bound to it, so registering it again only binds keys |
| InputControllers.Effective | src/client/inputcontroller.js:199-210 | the effective bindings hold exactly the user's keys and the bound default keys, each user binding overriding the default one |
| InputControllers.Keybinds | src/client/inputcontroller.js:212-220 | every key in the new bindings comes from a lower-cased entry with a string value, and every such entry's key is bound |
| InputControllers.ControlSet.constructor | src/client/inputcontroller.js:53-63 | a new set takes the name, the guid is the counter's digits followed by ':', and the default, user and hold maps are empty |
| InputControllers.ControlSet.SetHeld | src/client/inputcontroller.js:326-328 | the command's hold state is set; a new command is appended to the hold keys' insertion order |
| InputControllers.ControlSet.EndHoldCommand | src/client/inputcontroller.js:71-76 | a held command publishes its ':end' event and is released; otherwise nothing happens |
| InputControllers.ControlSet.EndAllOngoingHoldCommands | src/client/inputcontroller.js:65-69 | every held command publishes its ':end' event, in key insertion order, and afterwards no command is held, with the same keys tracked |
| InputControllers.ControlSet.RegisterCommand | src/client/inputcontroller.js:78-112 | the default set becomes what `Register` decides for the lower-cased command: refused when already registered, else each key bound in turn until the first bad one |
| InputControllers.ControlSet.UnregisterCommand | src/client/inputcontroller.js:114-121 | every key bound to the command is unbound; when some key was bound, a held command publishes its ':end' event and is released, otherwise nothing is published |
| InputControllers.UnregisterAllDefaults | src/client/inputcontroller.js:270-280 | after unregistering the commands, a key is unbound exactly when it was bound to one of them, and every other binding is kept |
| InputControllers.UnregisterAllByCommand | src/client/inputcontroller.js:270-280 | a key keeps a binding iff it had one to none of the commands, and every unregistered command that was bound and is tracked ends released |
| InputControllers.UnregisterAllReleases | src/client/inputcontroller.js:273-280 | unregistering never makes a command held and releases every command that was bound to a key |
| InputControllers.Unbound | src/client/inputcontroller.js:115-120 | the keys stay; exactly those bound to the command become undefined |
| InputControllers.Released | src/client/inputcontroller.js:71-76 | the keys stay; the command is no longer held and the others keep their state |
| InputControllers.ReleasedAllAt | src/client/inputcontroller.js:65-69 | after releasing a list of commands, a command is held iff it was held and is not in the list |
| InputControllers.InputController.constructor | src/client/inputcontroller.js:126-159 | no control sets, no bindings, nothing published |
| InputControllers.InputController.UpdateActualKeybinds | src/client/inputcontroller.js:199-210 | the bindings are the top set's effective ones, or empty without a set |
| InputControllers.InputController.PushControlSet | src/client/inputcontroller.js:168-187 | the old top's held commands are ended and published; a fresh empty set with the next guid goes on top, so no key is bound |
| InputControllers.InputController.PopControlSet | src/client/inputcontroller.js:189-197 | the top set is removed and its held commands are ended and published; the bindings become the new top's; an empty stack is left as it is |
| InputControllers.InputController.SetKeybinds | src/client/inputcontroller.js:212-224 | the top set's user bindings are replaced and the effective bindings follow; with no set the call throws |
| InputControllers.InputController.RegisterCommandOn | src/client/inputcontroller.js:233-263 | the set's defaults become what `Register` decides; on success the bindings are refreshed, on a throw they are left stale |
| InputControllers.InputController.UnregisterCommandsOn | src/client/inputcontroller.js:270-285 | each lower-cased command is unregistered in turn: keys bound to them are unbound, bound held commands are released with their ':end' events published, and the bindings are refreshed |
| InputControllers.InputController.Handle | src/client/inputcontroller.js:309-336 | an event is handled iff neither ctrl nor meta is held and its alias is bound to a non-empty command; then ':start' and the bare command, or ':end', are published under the top set's guid, the command's hold state follows, and the default action is prevented exactly for the listed aliases |
| InputControllers.PushThenPop | src/client/inputcontroller.js:168-197 | pushing a set and popping it restores the old top's bindings and leaves its maps unchanged |
| Util.SplitOn | src/shared/box2dwebcollisionmanager.js:390 | splitting gives at least one piece and no piece contains the separator |
| Util.SplitJoin | src/shared/box2dwebcollisionmanager.js:390 | joining the pieces of a split with the same separator gives the string back |
| Util.JoinSplit | src/shared/box2dwebcollisionmanager.js:390 | a non-empty list of pieces free of the separator, once joined, splits back into exactly those pieces |

## Left out

- Vector and matrix helpers (`vec2.js`, `mat2.js`, `2d.js`) are not part of this model. Vectors are pairs of `real`, with no floating-point rounding, NaN or infinities.
- Trigonometric, square-root and exponential geometry is not computed: `Thruster.init`, the base-thruster positions in `setupBaseThrusters`, `getCellWorldPosition`, `worldToLocal`, `getAtomAtWorldPosition`/`getAtomAtLocalPosition`, the heading, `acos`, `cos` and `sin` code in the mouse-look AI, and the query-point offset in the vehicle physics. The AI takes the relative target angle and the cosine and sine of the thrust heading as inputs, and the falloff and square root are function parameters.
- The world-to-cell conversion at the start of the calculator's `execute` (`worldToLocal`, the registration offset, the scaling and `Math.floor`) is the `toCell` parameter of the collision-damage handler, and `DamageCalculators.DamageCalculator.Execute` takes cell coordinates.
- The `exp` falloff of the radial policy is an uninterpreted non-negative function.
- `spawnScrap` creates entities with random explosion vectors; it is modelled only as a `ScrapSpawn` event in the model's log.
- Box2D plumbing is foreign-library work and is not modelled: body and fixture creation, enable and disable, `_updateBodyShape`/`updateActorShape`, `step`, debug drawing, `_renderThrusters`, and the force application itself. The same holds for the vehicle physics `init` subscriptions (spawn, kill, atoms:load, shape:loss) and for `_onKill` in its `dispose`.
- `_getEventNames` reads the event library's private callback table. PhysicsComponents.PhysicsComponent.Subscribe and PhysicsComponents.PhysicsComponent.Unsubscribe therefore take the event names the emitter holds after the `on`/`off` call as input, and keep the names from before as a field. The emitter itself (`events.js`) is not part of this model.
- Listener subscription in the input controller (`subscribe`, `subscribeOnOff`, `unsubscribe`) is not modelled; only the events published are. DOM listener wiring, `moveMouseHandlers`, `mousemove` and the mouse heading are left out, being browser I/O.
- The controller's deferreds are modelled as flags plus counts of queued spawn callbacks, not as asynchronous scheduling. Its `console.error` logging and the `console.warn` in `findTargetTorque` are left out.
- The module-level GUID counter of ControlSet and the module-level pools are fields of one instance (`InputControllers.InputController.nextGuid`, the pools of the collision manager). The model does not capture sharing them across instances.
- JavaScript plain-object lookups also see inherited keys such as `toString`. This affects `flagsLookup`, the component registry, the catalog's `_gizmoDataLookup` and `ongoingHoldCommands`. The Dafny maps see only the keys stored, so (for example) `registerComponent('toString', …)` is accepted here although the program silently ignores it.
- InputControllers.ToLower: lower-cases ASCII letters only; JavaScript `toLowerCase` also folds other scripts.
- ComponentSystem.IsSpace: the `\s` class is restricted to ASCII whitespace.
- ThrusterAIUtils.TargetTorque: requires `inverseInertia > 0.0`, because a zero inverse inertia gives Infinity/NaN torques in the program. The same precondition is on ThrusterAIUtils.Braking, ThrusterAIUtils.OptimalTorque, ThrusterAIUtils.Settle, ThrusterAIUtils.Moving, ThrusterAIUtils.TargetTorqueResult.FindTargetTorque and MouseLookThrusterAIs.MouseLookThrusterAI.SetThrustersFromInput.
- ThrusterAIUtils.IterateOnce: the NaN paths of the floating-point error comparison are not modelled.
- ThrusterAIUtils.TargetTorqueResult.FindTargetTorque: the sign of an infinite braking distance is not kept.
- Vehicles.VehicleModel.ApplyDamageToAtoms: requires at least as many damage values as atoms. The program reads `undefined` past the end and gets NaN hp. The same precondition is on Vehicles.VehicleModel.ApplyDamageToAtomsFresh and Vehicles.VehicleModel.ReceiveHit.
- InputControllers.InputController.Handle: requires `Valid()`. So it does not serve the stale bindings that a registration which throws partway leaves until the next refresh, although the program's handler would.
- ComponentSystem.Entity.AddComponent: requires at least one argument. With none the program throws a TypeError reading `indexOf` of `undefined`.
- Junkyards.Junkyard.CheckJSONData: takes the document's top-level keys as a list without repeats, as `Object.keys` gives them.
- The `CellRect` setters (`setLRTB`, `setLTWH`, `setFromRect`, `combine`, `clip` into a destination) are modelled on values: each returns the updated rectangle, and every call site stores it back. Aliasing between a rectangle and its destination is therefore not captured.
- `ContactInfo.gather` and `computeArguments` average float impulses over at most two manifold points, modelled with exact `real` arithmetic.
- The three defects listed under Findings are reproduced as written on the main path. Their corrected versions are proved beside them and are not wired in.

## Findings

| source | as written | input that shows it | evidently intended | confidence | as-written member | corrected member |
|---|---|---|---|---|---|---|
| src/shared/box2dwebcollisionmanager.js:241 | `ContactReport.set` copies `info.tangentNormalImpulse`, a field that is only ever set to 0, into `averageTangentImpulse` | one contact point with tangent impulse 2 and the tangent-impulse argument requested: the record's average is 2, the report's is 0 | copy `info.averageTangentImpulse`, as the normal impulse line above it does | high, not executed | Contacts.TangentAverageLost | Contacts.ReportsPerRole |
| src/shared/vehiclemodel.js:164-166 | `_applyDamageToAtoms` passes the same detached lists to every `_applyDamageToAtom` call, which re-runs `_detachParts` on everything accumulated so far whenever the lists are non-empty | a hit on atom a1 (hp 1, size 1×1, damage 5) then a live hit on a2 (hp 10, damage 1): `cellCount` drops by 2 instead of 1 and 'shape:loss' is published twice | lower `cellCount` once per detached atom, by its area | medium, not executed | Vehicles.SharedLossExcess | Vehicles.VehicleModel.ApplyDamageToAtomsFresh |
| src/shared/box2dwebcollisionmanager.js:563-566 | the conditional operator binds looser than bitwise OR, so the condition mask is BEGIN if begin was seen, else END if end was seen, else CONTINUE | a pair that begins and ends contact in the same step: the mask is BEGIN alone, so a 'collision:end' event does not fire | the OR of BEGIN when begun, END when ended, and CONTINUE when both or neither | medium, not executed | CollisionEvents.EndMissedWhenBeganToo | CollisionEvents.EndFiresWhenEnded |
