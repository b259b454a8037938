# GregTech Food Option trees, modelled in Dafny

This project models the tree core of the GregTech Food Option mod:

- **growth of a tree species** (`GTFOTree`): `grow` draws a trunk height and checks the world-height bounds. It then runs the clearance test `isSuitableLocation`, layer by layer, using the species' Moore radius. If the ground sustains the sapling, it emits a four-layer canopy with randomly thinned corners, followed by a vertical trunk. Every block goes through a caller-supplied notifier.
- **the lemon species** (`LemonTree`), which overrides `grow` to do nothing.
- **the block bookkeeping of `GTFOMetaBlocks`**: how many leaves, log and sapling blocks `init` builds; the property override of log item models; and `statePropertiesToString`, which renders a block state's properties as a model variant string.

The modules are:

- `Java` (`java.dfy`): Java's 32-bit `int` with its wrap-around, and Java's `/` and `%`, which truncate toward zero.
- `World` (`world.dfy`): positions, block states and the host's block callbacks. It also holds the `Level` class (the world and the notifier's log) and the `Random` class (a `java.util.Random` as an infinite stream of draws).
- `LemonTree` (`lemontree.dfy`): the lemon's constant overrides.
- `MetaBlocks` (`metablocks.dfy`): `init`'s counts, the override merge, `String.compareTo`, and `statePropertiesToString`.
- `Tree` (`tree.dfy`): the species, the cell orders of the nested loops, and the specification functions. These are `Clear`, `LeafScan`, `TrunkScan` and `GrowSpec`, each a left fold matching the Java loops. The module also holds the `Tree` class, whose methods are proved against those functions.

Each method that changes the world works on a `Level` and a `Random`. Its contract equates the resulting snapshot (world, notifier log, draws taken, bounds drawn) with the specification function applied to the snapshot before the call. The properties are proved about the specification functions.

The model follows the code. In three places the code behaves differently from what a quick reading suggests:

- The world-height test is effectively strict. `grow` first checks `y + h + 1 <= height`, then `y < height - h - 1`, and the second check subsumes the first.
- On the **top** canopy layer (`foliageLayer == 0`) each corner still takes its `nextInt(2)` draw but never gets leaves. The draw keeps a corner, on a non-zero value, only on the three lower layers.
- A successful `grow` need not place any log. Each log is placed only if the block one above its spot is air or leaves.

## Model

| member | source | states |
|---|---|---|
| Java.Inc | src/main/java/gregtechfoodoption/block/GTFOTree.java:68-71 | `x++` on a Java int: the successor below `Integer.MAX_VALUE`; `MAX_VALUE` wraps to `MIN_VALUE` |
| Java.DivRem | src/main/java/gregtechfoodoption/block/GTFOTree.java:113-118 | Java `/` truncates toward zero; `%` takes the dividend's sign, lies strictly between `-b` and `b`, and `a == (a / b) * b + a % b` |
| World.Notified | src/main/java/gregtechfoodoption/block/GTFOTree.java:155 | one notifier call appends exactly one placement to the log; it writes that placement into the world only when the notifier applies placements; no draw is taken |
| World.Draw | src/main/java/gregtechfoodoption/block/GTFOTree.java:96 | `nextInt(bound)` yields a value in `[0, bound)`, consumes one draw and records its bound |
| World.Level.Notify | src/main/java/gregtechfoodoption/block/GTFOTree.java:155 | the log gains the placement; the world is updated iff the notifier applies placements |
| World.Level.PlantGrow | src/main/java/gregtechfoodoption/block/GTFOTree.java:85 | `onPlantGrow` on the ground block replaces the world with the host's result |
| World.Random.NextInt | src/main/java/gregtechfoodoption/block/GTFOTree.java:96 | returns the next stream value reduced into `[0, bound)`, advances the stream by one and records the bound |
| LemonTree.ColorsAgree | src/main/java/gregtechfoodoption/worldgen/trees/LemonTree.java:27-35 | block and item tints are the same constant `0x87A92C`, whatever the tint index |
| LemonTree.AppleOneInTwenty | src/main/java/gregtechfoodoption/worldgen/trees/LemonTree.java:42-48 | exactly one of the twenty equally likely `nextInt(20)` values, namely 0, yields a lemon |
| Tree.LemonNeverGrows | src/main/java/gregtechfoodoption/worldgen/trees/LemonTree.java:22-25 | the lemon's `grow` answers false and leaves the world, the log and the random source untouched |
| Tree.LemonClearanceColumn | src/main/java/gregtechfoodoption/worldgen/trees/LemonTree.java:37-40 | with radius 0 at every height, the clearance test inspects only the trunk column, bottom to top |
| Tree.LemonClearanceSize | src/main/java/gregtechfoodoption/worldgen/trees/LemonTree.java:37-40 | the lemon's clearance test looks at exactly `minHeight + 2` cells: those in the origin's column from `y` to `y + minHeight + 1` |
| Tree.Tree.OfLemon | src/main/java/gregtechfoodoption/worldgen/trees/LemonTree.java:18-20 | the lemon is named "lemon" with seed 4 and appends itself to the tree list |
| Tree.LemonSlots | src/main/java/gregtechfoodoption/worldgen/trees/LemonTree.java:19 | seed 4 gets leaves and log from list 1 with meta 0, the sapling from list 0 with meta 8, and planks from list 0 with meta 4 |
| MetaBlocks.CountUpTo | src/main/java/gregtechfoodoption/block/GTFOMetaBlocks.java:44-47 | a `for (i = 0; i <= n; i++)` loop constructs `n + 1` blocks, indexed `0 .. n` in order |
| MetaBlocks.Init | src/main/java/gregtechfoodoption/block/GTFOMetaBlocks.java:44-55 | for `t` trees, `init` builds `t/4 + 1` leaves blocks, `t/4 + 1` log blocks and `t/8 + 1` sapling blocks; every seed below `t` finds its group among them |
| Tree.SlotsWithinInit | src/main/java/gregtechfoodoption/block/GTFOMetaBlocks.java:44-55 | a seed below the tree count indexes an existing leaves, log and sapling group |
| MetaBlocks.MergeOverrides | src/main/java/gregtechfoodoption/block/GTFOMetaBlocks.java:86-87 | copy-then-`putAll` has the union of the keys; an override wins; any other key keeps the state's value |
| MetaBlocks.MergeIdempotent | src/main/java/gregtechfoodoption/block/GTFOMetaBlocks.java:86-87 | applying the same overrides twice gives the same map as applying them once |
| Tree.LogItemModelMatchesTrunk | src/main/java/gregtechfoodoption/block/GTFOMetaBlocks.java:67-69 | a log's item model, overridden with `axis=y`, has exactly the properties of the state the trunk places |
| MetaBlocks.LexTotal | src/main/java/gregtechfoodoption/block/GTFOMetaBlocks.java:116 | `String.compareTo` order is total: two different names are ordered one way or the other |
| MetaBlocks.LexTransitive | src/main/java/gregtechfoodoption/block/GTFOMetaBlocks.java:116 | the name order is transitive |
| MetaBlocks.LexAsymmetric | src/main/java/gregtechfoodoption/block/GTFOMetaBlocks.java:116 | the name order never places two names each before the other |
| MetaBlocks.SortedNames | src/main/java/gregtechfoodoption/block/GTFOMetaBlocks.java:115-117 | the sorted entries list each property name exactly once, in strictly ascending `compareTo` order |
| MetaBlocks.AppendEntries | src/main/java/gregtechfoodoption/block/GTFOMetaBlocks.java:119-128 | the loop leaves the builder holding `name=value` entries separated by single commas, non-empty iff there was an entry |
| MetaBlocks.StatePropertiesToString | src/main/java/gregtechfoodoption/block/GTFOMetaBlocks.java:112-135 | the method's result is the rendering `Rendered` of the property map |
| MetaBlocks.NormalIffEmpty | src/main/java/gregtechfoodoption/block/GTFOMetaBlocks.java:130-132 | the rendering is "normal" exactly when there are no properties |
| MetaBlocks.RenderedEntries | src/main/java/gregtechfoodoption/block/GTFOMetaBlocks.java:115-128 | for comma-free names and values, cutting the rendering at its commas gives back every `name=value` in ascending name order, with one comma fewer than entries |
| MetaBlocks.SplitJoin | src/main/java/gregtechfoodoption/block/GTFOMetaBlocks.java:119-122 | joining comma-free parts with commas and then splitting at commas is the identity |
| MetaBlocks.JoinCommaCount | src/main/java/gregtechfoodoption/block/GTFOMetaBlocks.java:119-122 | joining n comma-free parts inserts exactly n - 1 commas |
| Tree.Registry.constructor | src/main/java/gregtechfoodoption/block/GTFOTree.java:48 | the static tree list starts empty |
| Tree.Tree.constructor | src/main/java/gregtechfoodoption/block/GTFOTree.java:50-56 | a new tree has the given name and seed and zeroed counters, and is appended to the tree list |
| Tree.Tree.UpdatePlacePercentage | src/main/java/gregtechfoodoption/block/GTFOTree.java:67-75 | the counters advance as Java ints; a report is logged iff the new checked count is a multiple of 1000 |
| Tree.RecordStep | src/main/java/gregtechfoodoption/block/GTFOTree.java:67-75 | short of overflow, checked gains one, placed gains one iff the chunk succeeded, `0 <= placed <= checked` is kept, and the call reports iff checked is a multiple of 1000 |
| Tree.RecordWraps | src/main/java/gregtechfoodoption/block/GTFOTree.java:68 | the chunk after `Integer.MAX_VALUE` makes checked negative and breaks `placed <= checked` |
| Tree.RecordRun | src/main/java/gregtechfoodoption/block/GTFOTree.java:67-75 | from zero, a run of fewer than 2^31 calls counts every call and every success, and logs one report per thousand calls |
| Tree.MinTrunkHeight | src/main/java/gregtechfoodoption/block/GTFOTree.java:95-97 | the trunk height drawn is between 5 and 7 |
| Tree.Tree.AddCondition | src/main/java/gregtechfoodoption/block/GTFOTree.java:107-110 | appends the condition and returns the same tree |
| Tree.Tree.SetupBlocks | src/main/java/gregtechfoodoption/block/GTFOTree.java:112-119 | the leaves, log and sapling states come from the seed's slots; when a list index is out of range, the fields assigned before it keep their new value and the rest keep their old one |
| Tree.LeavesRef | src/main/java/gregtechfoodoption/block/GTFOTree.java:113-116 | for a non-negative seed, the leaves and log slot is group `seed/4` with meta in {0, 4, 8, 12}, and it encodes the seed exactly |
| Tree.SaplingRef | src/main/java/gregtechfoodoption/block/GTFOTree.java:117-118 | for a non-negative seed, the sapling slot is group `seed/8` with an even meta of at most 14, and it encodes the seed exactly |
| Tree.PlanksRef | src/main/java/gregtechfoodoption/block/GTFOTree.java:202 | for a non-negative seed, the planks slot is group `seed/16` with meta `seed%16`, and it encodes the seed exactly |
| Tree.SlotsDistinct | src/main/java/gregtechfoodoption/block/GTFOTree.java:112-119 | two different non-negative seeds never share a leaves, log, sapling or planks slot |
| Tree.PlanksRecipe | src/main/java/gregtechfoodoption/block/GTFOTree.java:200-204 | the recipe named `<name>_wood_planks` turns one log into four planks |
| Tree.InitRecipes | src/main/java/gregtechfoodoption/block/GTFOTree.java:200-204 | against lists of the given sizes, `initRecipes` builds the planks recipe exactly when the planks index `seed/16` and the log index `seed/4` are in range; otherwise the lookup throws and nothing is built |
| Tree.RecipeUsesTreeLog | src/main/java/gregtechfoodoption/block/GTFOTree.java:200-204 | the recipe's input is the very log slot `setupBlocks` gives the tree |
| Tree.ReplaceableIff | src/main/java/gregtechfoodoption/block/GTFOTree.java:128-136 | `isReplaceable` via `canGrowInto` holds on empty positions (air), on air and leaves blocks and on the six vanilla blocks (grass, dirt, both logs, sapling, vine) whatever their material, and on nothing else; stone is not replaceable |
| Tree.EmptyWorldClear | src/main/java/gregtechfoodoption/block/GTFOTree.java:128-136 | in a world of air the clearance test passes, whatever the species' radii |
| Tree.ClearanceMember | src/main/java/gregtechfoodoption/block/GTFOTree.java:176-184 | the clearance cells are exactly the cells of layers `0 .. minHeight+1` that lie within their own layer's Moore radius along x and z |
| Tree.ClearanceIff | src/main/java/gregtechfoodoption/block/GTFOTree.java:175-191 | the clearance test passes iff every cell within the per-layer Moore radius is replaceable; a negative radius asks for nothing |
| Tree.ScanColumn | src/main/java/gregtechfoodoption/block/GTFOTree.java:183-187 | the inner loop answers whether the whole row is replaceable; it stops at the first failing cell, having looked at that cell and only cells before it |
| Tree.ScanSquare | src/main/java/gregtechfoodoption/block/GTFOTree.java:182-188 | the same for one layer's square, row by row |
| Tree.Tree.IsSuitableLocation | src/main/java/gregtechfoodoption/block/GTFOTree.java:175-191 | answers `Clear`; on failure it has looked at a prefix of the clearance cells that ends with the first blocked cell |
| Tree.LeafRadius | src/main/java/gregtechfoodoption/block/GTFOTree.java:140-141 | with truncating division, the canopy radii from the bottom layer to the top are 2, 2, 1, 1 |
| Tree.LeafRadiusTapers | src/main/java/gregtechfoodoption/block/GTFOTree.java:141 | going up the canopy the radius never grows and stays between 1 and 2 |
| Tree.EuclideanRadiusDiffers | src/main/java/gregtechfoodoption/block/GTFOTree.java:141 | under Euclidean (floor) division the bottom layer would have radius 3, so the taper depends on Java's truncation |
| Tree.CanopyMember | src/main/java/gregtechfoodoption/block/GTFOTree.java:139-146 | the canopy cells are exactly those of the four top layers within their layer's radius |
| Tree.LeafScanShape | src/main/java/gregtechfoodoption/block/GTFOTree.java:150-156 | leaf placement only appends leaves, only on visited cells and never on a top-layer corner, and takes exactly one `nextInt(2)` per corner cell |
| Tree.CanopyCorners | src/main/java/gregtechfoodoption/block/GTFOTree.java:150 | every canopy layer has exactly four corner cells |
| Tree.CanopyShape | src/main/java/gregtechfoodoption/block/GTFOTree.java:138-161 | `generateLeaves` places only leaves, only inside the canopy and never on a top corner, and takes exactly sixteen `nextInt(2)` draws |
| Tree.LeafStepPlaces | src/main/java/gregtechfoodoption/block/GTFOTree.java:150-155 | one cell gets leaves when the host allows it and the cell is off the corners, or is a corner below the top layer with a non-zero draw |
| Tree.LeafScanCovers | src/main/java/gregtechfoodoption/block/GTFOTree.java:146-158 | with a notifier that only records placements, every visited cell the host allows gets leaves when it is off the corners, or when it is a lower-layer corner whose `nextInt(2)` draw (the one after the corners before it) is non-zero |
| Tree.CanopyCovers | src/main/java/gregtechfoodoption/block/GTFOTree.java:139-158 | with a notifier that only records placements, every off-corner cell of the four layers within its layer's radius gets leaves when the host allows it |
| Tree.Tree.GenerateLeaves | src/main/java/gregtechfoodoption/block/GTFOTree.java:138-161 | the three nested loops produce exactly the fold `LeafScan` over the canopy in loop order |
| Tree.Tree.GenerateLeafLayer | src/main/java/gregtechfoodoption/block/GTFOTree.java:143-159 | one layer's rows produce the fold over that layer's square |
| Tree.Tree.GenerateLeafRow | src/main/java/gregtechfoodoption/block/GTFOTree.java:146-158 | one row's cells produce the fold over that row |
| Tree.Tree.GenerateLeafCell | src/main/java/gregtechfoodoption/block/GTFOTree.java:150-156 | one cell: an off-corner cell is tried at once; a corner takes a draw and is tried only on a non-zero draw below the top layer; the host is asked about the origin, not the cell |
| Tree.WithAxisY | src/main/java/gregtechfoodoption/block/GTFOTree.java:170 | the log state with `axis=y` keeps the block and every other property |
| Tree.TrunkShape | src/main/java/gregtechfoodoption/block/GTFOTree.java:163-173 | the trunk appends at most `minHeight` logs with the vertical axis, all in the origin's column at offsets `0 .. minHeight-1`, strictly going up, and takes no draw |
| Tree.TrunkInAir | src/main/java/gregtechfoodoption/block/GTFOTree.java:165-171 | when the host calls offsets `1 .. n` air in whatever world it is asked about, the trunk is exactly n logs at offsets `0 .. n-1`, both for a notifier that writes the world and for one that only records |
| Tree.TrunkLogAt | src/main/java/gregtechfoodoption/block/GTFOTree.java:165-171 | with a notifier that only records placements, the trunk logs a placement at offset k exactly when the host calls the block at offset k + 1 air or leaves |
| Tree.TrunkMayBeEmpty | src/main/java/gregtechfoodoption/block/GTFOTree.java:169-170 | when nothing is air or leaves, no log is placed at all |
| Tree.Tree.GenerateTrunk | src/main/java/gregtechfoodoption/block/GTFOTree.java:163-173 | the loop produces exactly the fold `TrunkScan` of `minHeight` steps |
| Tree.GrowAccepts | src/main/java/gregtechfoodoption/block/GTFOTree.java:77-93 | `grow` succeeds iff the species is not the lemon, `1 <= y`, `y + h + 1 < height`, the clearance test passes, and the ground sustains the sapling |
| Tree.GrowRejectsCleanly | src/main/java/gregtechfoodoption/block/GTFOTree.java:77-93 | a rejected `grow` calls the notifier not once and leaves the world alone; only the height draw is consumed, or none for the lemon |
| Tree.GrowLeavesThenTrunk | src/main/java/gregtechfoodoption/block/GTFOTree.java:85-88 | a successful `grow` notifies the canopy leaves first and then the trunk logs in the origin's column going up; 17 draws are taken: bound 3, then sixteen of bound 2 |
| Tree.Tree.Grow | src/main/java/gregtechfoodoption/block/GTFOTree.java:77-93 | the method's verdict and resulting snapshot are those of `GrowSpec` |
| Tree.Tree.GetApple | src/main/java/gregtechfoodoption/block/GTFOTree.java:206-208 | a species other than the lemon hands out nothing and draws nothing; the lemon draws once with bound 20 and drops a lemon iff the draw is 0 |

## Left out

- `setWorld` and `getRandomStrength`: simplex noise over floating point, which is outside this model.
- The percentage printed by `updatePlacePercentage`: floating-point division and string formatting. Only the fact that a report is logged, with its counters, is kept.
- `getTreeGrowInstance`, `getWorldGenInstance` and the `GTFOTreeGen` objects the constructor builds: `GTFOTreeGen` is not part of this model. Neither is `PillChain`.
- `getNaturalLeavesState` and `getPlantableSapling`: both are single calls into the host. The sapling's block is passed directly to `canSustainPlant`.
- Client-side registration (`registerItemModels`, `registerItemModel`, `ModelLoader`), `registerOreDict`, smelting and the casing blocks: host registration calls. Only the override merge and the variant string are modelled.
- `Tree.PlanksRecipe`: builds the recipe value; registering it with the host (`ModHandler.addShapelessRecipe`) is left out.
- `MetaBlocks.Init`: models the three construction loops given the tree count at the time `init` runs. The `setRegistryName` calls in `init`'s own loop bodies are host calls and are left out. Adding each block to its list happens in the block constructors, which are not part of this model.
- `MetaBlocks.StatePropertiesToString`: properties are keyed by name, so the model assumes two properties never share a name. Names and values are plain strings, and `getPropertyName` is the value itself. Java's `compareTo` orders by UTF-16 code unit, but a Dafny `char` is a Unicode scalar value and the model compares character by character. The two orders differ for names with supplementary characters (above U+FFFF): Java puts such a character, which starts with a surrogate unit, before one in U+E000 .. U+FFFF, and the model puts it after.
- `LemonTree.ColorsAgree`: the block state, position and item stack arguments of the colour methods are not modelled, only the tint index.
- `Tree.Tree.Grow`: positions and heights are unbounded integers, so Java `int` overflow of the coordinate arithmetic (`pos.getY() + minHeight + 1` and the loop bounds) is not modelled.
- `Tree.Tree.SetupBlocks`: before `setupBlocks` runs, the state fields are `null` in Java. The model starts them as air, and a `NullPointerException` from an early `grow` is not modelled.
- `Tree.Tree.GetApple`: the lemon draws from the global `GTFOValues.rand`. Here that source is passed as a parameter.
- The host's block callbacks (`Block.isReplaceable`, `canBeReplacedByLeaves`, `isAir`, `isLeaves`, `canSustainPlant`, `onPlantGrow`) are parameters, not implemented. The tree's own `isReplaceable` and `canGrowInto` are modelled, as `Tree.IsReplaceable` and `Tree.CanGrowInto`. The `java.util.Random` sequence is likewise an arbitrary stream of values reduced modulo the bound.
- `Tree.LeafScanCovers`, `Tree.CanopyCovers`, `Tree.TrunkLogAt`: stated for a notifier that only records placements. When the notifier writes the world too (sapling growth), later cells are judged against a changed world by arbitrary host callbacks, so no placement can be promised there.
- Concurrency and the `TREES` list's use across threads are left out.
- `Tree.Tree.GenerateLeaves`, `Tree.Tree.IsSuitableLocation`: each nested Java loop is its own method here (layer, row, cell). The visiting order and the early exit are the same.
