# Skill-Tree-HL in Dafny

A model of the logic of the Skill-Tree-HL browser app, a skill tree for
Nen abilities. The model covers three parts.

- **The rule engine** (`js/engine.js`).
  - A player has a budget of points (`pointsMax`). They buy nodes of the
    skill graph, each for its `cost`.
  - A node may list AND prerequisites (`requires`) and OR prerequisites
    (`requiresAny`). It may also ask for a minimum Nen stage.
  - The stage (Iniciante, Perito, Mestre) comes from the points spent on
    active principle nodes.
  - `canBuy` checks six conditions in a fixed order.
  - A node is refunded only while no active node still depends on it.
  - Stat totals are recomputed from the active nodes' effects after every
    change.
  - `importBuild` buys a requested list again and again until a pass makes
    no progress.
- **The host extension** (`js/app.js`). The page's script takes the stage
  check away from the engine and does it itself.
  - It moves each node's `reqStage` to `_reqStage` and wraps `canBuy` and
    `buy` with its own gate.
  - Its stage uses every spent point.
  - It adds stack levels to "stackable" nodes, such as the aura expansion.
    Level k of a node with base cost c costs c + k - 1. Levels above the
    first are bought and refunded without touching the engine's active set.
  - It also decides where a node's icon is looked up.
- **The layout** (`js/layout.js`). A node list becomes a map from node id
  to a position.
  - There is one column per Nen principle present, in a fixed order, with
    "Outros" last.
  - Within a column, each node's depth comes from a guarded fixed-point
    relaxation over its prerequisites in the same column.
  - Advanced principles are pushed below the deepest basic row.
  - The nodes of a row are spread symmetrically around the column centre.

Module layout:

- `types.dfy` (`Types`) holds the shared values: nodes, effects, failure
  reasons and the `{ok, reason}` result.
- `engine.dfy` (`RuleEngine`) holds the pure specification of the engine
  over a `Selection` snapshot (`CanBuy`, `BuyStep`, `RefundStep`, `StatsOf`,
  ...).
  - It also holds the class `Engine`, whose fields are the mutable `state`
    of `js/engine.js`.
  - Each state-changing method of `Engine` states its whole new state.
    `Buy`, `Refund`, `BuyPass` and `ImportBuild` are proved equal to the
    pure functions `BuyStep`, `RefundStep`, `PassStep` and `ImportResult`.
    The other methods state their new fields directly.
- `host.dfy` (`Host`) holds the host's stage gate and stacking.
  - These are step functions over the same snapshot, plus methods on the
    `Engine` object.
  - The host invariant `Consistent` says that spent points equal the price
    of every active node at its stack level.
- `text.dfy` (`HostText`) holds the string rules of the host: `trim`,
  `iconPath` and the label rule of `isStackableNode`.
- `layout.dfy` (`Layout`) and `geometry.dfy` (`LayoutGeometry`) hold the
  layout as functions: column, depth, row, slot and coordinates of each
  node.
- `layout_compute.dfy` (`LayoutCompute`) holds `compute` itself: the loops
  that fill the Maps. It is proved to produce the positions the layout
  functions define.

Where the documentation of the app and its code disagree, the model
follows the code:

- `reset` in `js/engine.js` (lines 27-31) does not clear the host's stack
  levels, and `Engine.Reset` leaves `stacks` as it is. The gap is at the
  engine level only: the page's reset button (`js/app.js`, lines 327-332)
  calls the engine's `reset` and then empties `stacks` itself. That
  handler is not part of this model.
- The host's `nenStage` counts every spent point, stack levels included.
  The engine's own `nenPointsFundamentais` counts only the cost of active
  principle-tagged nodes. Both are modelled, as `Host.StageFromPN` and
  `RuleEngine.NenStage`/`PrinciplePoints`, and they are not reconciled.

## Model

| member | source | states |
|---|---|---|
| Types.Remove | js/engine.js:97 | `Set.delete`: the result holds exactly the other ids, and it stays duplicate-free |
| RuleEngine.ByIdOf | js/engine.js:18 | every node's id is a key of the table, and each key maps to a node of the list that carries that id |
| RuleEngine.OrderOf | js/engine.js:18 | the Map's iteration order lists each id of the table exactly once |
| RuleEngine.TableOf | js/engine.js:18 | the loaded table is well formed and holds exactly the listed nodes by id |
| RuleEngine.SumCostAppend | js/engine.js:76-77 | adding an id to the active list adds exactly its cost to the cost total |
| RuleEngine.SumCostRemove | js/engine.js:97-98 | removing an active id subtracts exactly its cost from the cost total |
| RuleEngine.SumCostSubset | js/engine.js:76-77 | a duplicate-free list of ids costs no more than any duplicate-free list holding all of them |
| RuleEngine.SumCostSameIds | js/engine.js:76-77 | two duplicate-free lists of the same ids cost the same, whatever their order |
| RuleEngine.PrinciplePointsAtMostCost | js/engine.js:158-168 | the principle points (PN) never exceed the total cost of the active nodes |
| RuleEngine.PrinciplePointsAppend | js/engine.js:158-168 | activating one more id adds exactly its principle cost to PN |
| RuleEngine.PrinciplePointsRemove | js/engine.js:158-168 | deleting an active id takes exactly its principle cost off PN |
| RuleEngine.PrinciplePointsSubset | js/engine.js:158-168 | more active nodes (duplicate-free, holding all the earlier ones) never give a smaller PN |
| RuleEngine.NenStage | js/engine.js:170-175 | Mestre exactly when PN >= 31, Perito exactly when 10 <= PN <= 30, Iniciante exactly when PN <= 9; every stage ranks at least 1 |
| RuleEngine.NenStageMonotone | js/engine.js:33-36 | more PN never gives a lower stage rank |
| RuleEngine.HasMonotone | js/engine.js:38-46 | `hasAll` and `hasAny` stay satisfied when more nodes are active |
| RuleEngine.CanBuy | js/engine.js:48-70 | each failure reason holds exactly when all earlier checks pass and its own check fails: unknown id, already active, spent + cost > cap, a `requires` id inactive, no `requiresAny` id active, stage too low; the stage failure names the stage asked |
| RuleEngine.BuyWithinBudget | js/engine.js:72-80 | after a successful buy, spent <= cap and the cap is unchanged |
| RuleEngine.BuyKeepsSpent | js/engine.js:72-80 | buy keeps "spent = sum of active costs" and keeps the active list duplicate-free |
| RuleEngine.CanBuyFromLarger | js/engine.js:48-70 | a node buyable in one selection stays buyable in any larger selection that lacks it and has room for its cost: prerequisites and stage only get easier |
| RuleEngine.FirstDependent | js/engine.js:85-89 | none exactly when no active node lists the id among its prerequisites; otherwise the name of such a node |
| RuleEngine.CanRefund | js/engine.js:82-91 | NotActive exactly when the id is not active; the only other failure is a dependent |
| RuleEngine.RefundBlockedIff | js/engine.js:82-91 | refund is allowed exactly when the id is active and no active node depends on it; it is blocked by a dependent exactly when one exists |
| RuleEngine.RefundKeepsSpent | js/engine.js:93-101 | refund keeps "spent = sum of active costs" and keeps the active list duplicate-free |
| RuleEngine.RefundUndoesBuy | js/engine.js:72-101 | a successful refund right after a successful buy of the same id restores the state exactly |
| RuleEngine.RefundAfterBuy | js/engine.js:82-101 | after buying a node that nothing active depends on, the refund is allowed |
| RuleEngine.RunKeepsSpent | js/engine.js:72-101 | any sequence of buys and refunds keeps "spent = sum of active costs" |
| RuleEngine.ApplyEffectsKeys | js/engine.js:105-109 | a stat appears in the totals exactly when it was there or some applied effect names it |
| RuleEngine.StatsOfKeys | js/engine.js:103-115 | a stat appears in the recomputed totals exactly when an effect of an active node names it |
| RuleEngine.ApplyEffectsAdds | js/engine.js:105-109 | with only "add" effects on a stat, its total grows by exactly the sum of their values |
| RuleEngine.StatsOfAdds | js/engine.js:103-115 | with only "add" effects on a stat, its recomputed total is the sum of those values over the active nodes |
| RuleEngine.PassShrinks | js/engine.js:133-137 | a pass only takes ids out of `want`; it shrinks `want` strictly exactly when it reports progress; a pass without progress leaves the state unchanged |
| RuleEngine.PassIdle | js/engine.js:133-137 | a pass without progress found every wanted id of the table unbuyable in the state it started from |
| RuleEngine.PassSound | js/engine.js:133-137 | a pass keeps "no repeats, only known ids, totals and spent points match the active nodes", and keeps the cap and the stack levels |
| RuleEngine.PassAppends | js/engine.js:133-137 | a pass only appends to `active`, and the ids it appends are exactly those it removed from `want` |
| RuleEngine.ImportFromSpec | js/engine.js:131-139 | the loop ends in a sound state with the same cap and stack levels, having appended only wanted ids, with every wanted id active or unbuyable |
| RuleEngine.ImportResultSpec | js/engine.js:126-140 | after `importBuild` the cap is the payload's (or the old one) clamped at 0, the stack levels are kept, only requested ids are active and every requested id is active or cannot be bought |
| RuleEngine.BoughtFacts | js/engine.js:72-80 | along a purchase order, the active list is the order itself, free of repeats and unknown ids, and its spent points are its total cost, within the cap |
| RuleEngine.PurchasesPrefix | js/engine.js:72-80 | every prefix of a purchase order is one, and the next id of the order is buyable after it |
| RuleEngine.RoomFor | js/engine.js:53-55 | a selection of ids from a purchase order, under a cap at least the order's, has room for any further id of the order |
| RuleEngine.FixpointCovers | js/engine.js:131-139 | a state where every requested id is active or unbuyable, holding only ids of a purchase order, holds all of that order |
| RuleEngine.ImportFromCovers | js/engine.js:131-139 | from nothing active, with a cap at least a purchase order's, the loop ends with exactly the order's ids active |
| RuleEngine.ImportRoundTrip | js/engine.js:117-140 | export then import: when the exported ids form a purchase order under the exported cap, importing them makes exactly those ids active again, spending their total cost, under the cap clamped at 0, whatever the table order |
| RuleEngine.Clamp | js/engine.js:23 | `Math.max(0, v)`, also used by `refundStack`: the result is v when v >= 0 and 0 otherwise |
| RuleEngine.Engine.constructor | js/engine.js:13-20 | `init`: table loaded, cap `maxPoints ?? 0`, nothing active or spent, empty totals, invariant established |
| RuleEngine.Engine.SetPointsMax | js/engine.js:22-25 | the cap becomes max(0, v); nothing else changes, so a selection over the new cap stays valid |
| RuleEngine.Engine.Reset | js/engine.js:27-31 | nothing active, nothing spent, no totals; the cap is unchanged |
| RuleEngine.Engine.RecomputeStats | js/engine.js:103-115 | the totals equal the effects of the active nodes applied in order |
| RuleEngine.Engine.NenPoints | js/engine.js:158-168 | the loop returns PN, the cost of the active principle-tagged nodes |
| RuleEngine.Engine.Buy | js/engine.js:72-80 | the verdict and new state are those of `BuyStep`; a success never exceeds the cap |
| RuleEngine.Engine.Refund | js/engine.js:93-101 | the verdict and new state are those of `RefundStep` |
| RuleEngine.Engine.ExportBuild | js/engine.js:117-124 | the exported active list is duplicate-free and known; its spent matches its costs when the state does |
| RuleEngine.Engine.ImportBuild | js/engine.js:126-140 | terminates in exactly the state `ImportResult` gives; the cap is the payload's (or the old one) clamped; every active id was requested; every requested id is active or cannot be bought now; spent matches the costs |
| RuleEngine.Engine.BuyPass | js/engine.js:133-137 | one pass over the table: the new state, the ids still wanted and the progress flag are exactly those of `PassStep` |
| Host.MoveStage | js/app.js:26-29 | `reqStage` is cleared and moved to `_reqStage` when set; nothing else changes |
| Host.StripStages | js/app.js:25-30 | node by node the loading loop's result, and no node keeps a `reqStage` |
| Host.StrippedEngineNeverGatesStage | js/app.js:24-33 | after stripping, the engine's own `canBuy` never fails for the stage |
| Host.StageFromPN | js/app.js:36-40 | the same three tiers, split at 10 and 31, as the engine's formula applied to the given PN |
| Host.StageRanksAgree | js/app.js:81 | the host's ranks (0, 1, 2) are the engine's ranks (1, 2, 3) shifted by one, and unknown names rank like Iniciante |
| Host.HostStageAtLeastEngineStage | js/app.js:41-44 | in a consistent state, the host's stage is never lower than the engine's own stage would be |
| Host.HostCanBuy | js/app.js:87-96 | a base failure is returned unchanged; after a base success the result fails exactly when `hasRequiredStage` fails, naming `_reqStage` |
| Host.HostBuyFollowsGate | js/app.js:97-102 | the wrapped buy returns the wrapped verdict; it buys only on success and leaves the state unchanged otherwise |
| Host.WithLevel | js/app.js:177-179 | `setStacks`: a level <= 0 deletes the key, a positive level is stored; other keys are untouched |
| Host.WithLevelKeepsPositive | js/app.js:177-179 | no level <= 0 is ever stored |
| Host.MeetsRequirementsMatchesGate | js/app.js:208-225 | for a node with no engine stage, `meetsRequirements` holds exactly when the wrapped `canBuy` would succeed at base price |
| Host.TotalLevelCostClosedForm | js/app.js:201-205 | k levels cost k*base + k(k-1)/2 in total |
| Host.TotalLevelCostAtLeastLast | js/app.js:201-205 | the total for k levels is at least the price of level k |
| Host.SumCostAtMostSpentSum | js/app.js:253 | stack levels only add to what the active nodes cost |
| Host.ConsistentWithoutLevels | js/app.js:172-176 | an engine state without levels whose spent matches its costs satisfies the host invariant |
| Host.HostBuyKeepsConsistent | js/app.js:97-102 | the wrapped buy keeps the host invariant |
| Host.FirstLevelKeepsConsistent | js/app.js:244-249 | buying level 1 keeps the host invariant |
| Host.ExtraLevelKeepsConsistent | js/app.js:250-256 | buying a further level keeps the host invariant |
| Host.BuyStackKeepsConsistent | js/app.js:240-257 | `buyStack` keeps the host invariant in every branch |
| Host.LastLevelKeepsConsistent | js/app.js:273-278 | refunding level 1 keeps the host invariant |
| Host.LevelDownKeepsConsistent | js/app.js:267-272 | giving back a level above 1 keeps the host invariant |
| Host.RefundStackKeepsConsistent | js/app.js:260-279 | `refundStack` keeps the host invariant in every branch |
| Host.RefundStackGuarded | js/app.js:260-279 | `refundStack` takes a node out of `active` only when it was active and no active node lists it among its prerequisites |
| Host.BuyStackWithinBudget | js/app.js:240-257 | after a successful `buyStack`, spent <= cap and the cap is unchanged |
| Host.BuyStackExtraLevel | js/app.js:250-256 | a successful extra level adds exactly base + level to spent, raises the level by one and leaves active and stats unchanged |
| Host.FirstLevelUndone | js/app.js:244-249 | buying level 1 sets level 1, and a successful refund of it restores the state exactly |
| Host.ExtraLevelUndone | js/app.js:250-256 | after an extra level, giving one level back succeeds and restores the state exactly |
| Host.RefundStackUndoesBuyStack | js/app.js:240-279 | a successful `refundStack` right after a successful `buyStack` restores the state exactly; for an extra level the refund always succeeds |
| Host.StackingExample | js/app.js:200-205 | a stackable node of base cost 2 costs 2, 3, 4 for three levels (spent 2, 5, 9), and three refunds go back to 5, 2, 0 |
| Host.SetStacks | js/app.js:177-181 | the level map becomes `WithLevel` of the old one |
| Host.ReconcileStacks | js/app.js:183-198 | exactly the entries whose node is unknown or inactive are removed |
| Host.HostBuy | js/app.js:97-102 | the object moves as `HostBuyStep` says and stays valid |
| Host.BuyStack | js/app.js:240-257 | the object moves as `BuyStackStep` says and stays valid |
| Host.RefundStack | js/app.js:260-279 | the object moves as `RefundStackStep` says and stays valid |
| HostText.LeadingSpacesSpec | js/app.js:107 | the counted prefix is white space and is followed by a non-space character or the end |
| HostText.TrailingSpacesSpec | js/app.js:107 | the counted suffix is white space and is preceded by a non-space character or the start |
| HostText.TrimSpec | js/app.js:107 | `trim` is empty exactly for all-white-space text; otherwise it starts and ends with a non-space character |
| HostText.TrimPadded | js/app.js:107 | white space around the text does not change `trim` |
| HostText.IconPath | js/app.js:106-113 | no path exactly for an empty or all-white-space icon; http(s) URLs and paths starting `/`, `./` or `../` are kept trimmed; anything else gets the `img/icons/` prefix |
| HostText.IconPathPadded | js/app.js:106-113 | white space around the icon value never changes the path |
| HostText.LowerAt | js/app.js:167 | lower-casing works character by character |
| HostText.MentionsAuraInContext | js/app.js:168 | the label pattern is unanchored: text before or after a match keeps it a match |
| HostText.AuraLiteral | js/app.js:168 | "expansão de aura" matches the pattern |
| HostText.LowerAuraLabel | js/app.js:167 | the label "Expansão de Aura" lower-cases to "expansão de aura" |
| HostText.AuraLabelIsStackable | js/app.js:164-169 | a node labelled "Expansão de Aura" is stackable without the flag |
| Layout.OthersLast | js/layout.js:9-13 | "Outros" is not a principle and ranks after all of them |
| Layout.FirstTagIndex | js/layout.js:11 | the first entry of ORDER found among the tags; none exactly when no entry of ORDER is a tag |
| Layout.GroupOfFirst | js/layout.js:9-13 | `groupOf` is one of the node's tags from ORDER, or "Outros" exactly when it has none, and no earlier entry of ORDER is a tag |
| Layout.Members | js/layout.js:17-22 | a column's list holds exactly the nodes whose group it is |
| Layout.ColumnsIn | js/layout.js:25 | the filtered ORDER holds exactly the principles present |
| Layout.Columns | js/layout.js:25-26 | the columns are exactly the groups present |
| Layout.ColumnsOrdered | js/layout.js:25-26 | the columns follow ORDER |
| Layout.ColumnsDistinct | js/layout.js:25-26 | no column is repeated, and "Outros", when present, is last |
| Layout.Max1 | js/layout.js:28 | at least 1 and at least the argument |
| Layout.PredsOfKeys | js/layout.js:31-34 | the predecessor map has exactly the nodes' ids as keys |
| Layout.PredsOfLast | js/layout.js:31-34 | an id maps to the AND and OR prerequisites of the last node with that id |
| Layout.InGroup | js/layout.js:54 | exactly the predecessors that are in the group |
| Layout.MaxDepth | js/layout.js:57 | the largest depth among the ids (0 for an unknown id), and it is attained |
| Layout.NewDepth | js/layout.js:53-60 | one more than every in-group predecessor's depth and attained by one of them, or 1 when there is none; at least 1 |
| Layout.PassShape | js/layout.js:50-62 | a pass keeps the root at 0 and every other depth >= 1 and on a group node; it keeps every known id and adds the nodes it visits |
| Layout.PassUnchanged | js/layout.js:50-62 | a pass that reports no change leaves the map as it was, with every visited node at its recomputed depth |
| Layout.RelaxShape | js/layout.js:47-63 | the guarded loop keeps the depth invariant and gives every group node a depth |
| Layout.RelaxFixedPoint | js/layout.js:47-63 | when the loop stops because nothing changed, every non-root node's depth is one more than its deepest in-group predecessor, or 1 |
| Layout.FirstPrinciple | js/layout.js:44 | the index of the first node of type "principle", or the length when there is none |
| Layout.RootOfChoice | js/layout.js:44 | the root is a group node: the first principle (every node before it is not one), or the first node when there is no principle |
| Layout.GroupDepthShape | js/layout.js:39-65 | the depth map has exactly the group's ids; the root has depth 0 and every other node has depth >= 1 |
| Layout.GroupDepthSettled | js/layout.js:47-65 | without the guard cutting it short, the column's depths are a fixed point of the rule |
| Layout.GroupMaxBounds | js/layout.js:66 | the column's maximum depth is >= 0, bounds every depth and is attained |
| Layout.GroupMaxes | js/layout.js:37-67 | a maximum is recorded exactly for the groups present |
| Layout.BasicMaxOf | js/layout.js:70-75 | the deepest basic column's maximum, or 0 |
| Layout.GlobalMaxOf | js/layout.js:80-83 | the deepest shifted row over all columns, and at least 1 |
| Layout.DepthWithinGroup | js/layout.js:39-66 | a node's depth lies between 0 and its column's maximum |
| Layout.BandsDisjoint | js/layout.js:6-7 | no principle is both basic and advanced |
| Layout.WithinBasicMax | js/layout.js:70-75 | a basic column's maximum is at most `basicMax` |
| Layout.WithinGlobalMax | js/layout.js:80-83 | a column's deepest shifted row is at most the global maximum |
| Layout.AdvancedRowsBelowBasic | js/layout.js:70-77 | every node of an advanced column is on a later row than every node of a basic column |
| Layout.OthersNotShifted | js/layout.js:77 | "Outros" is in neither band and has offset 0 |
| Layout.RowOfMembers | js/layout.js:99-102 | a row holds exactly the column's nodes whose shifted depth is that row |
| Layout.InOwnRow | js/layout.js:104-111 | every node is found in its own row |
| LayoutGeometry.BandInside | js/layout.js:110 | with height > 0, every row from 0 to the global maximum has 0 < y < height |
| LayoutGeometry.BandIncreasing | js/layout.js:110 | a later row has a larger y |
| LayoutGeometry.InsideColumn | js/layout.js:92-93 | an offset within half the span lands strictly inside the column |
| LayoutGeometry.AdvancedBelowBasic | js/layout.js:98-110 | with height > 0, every advanced node has a larger y than every basic node |
| LayoutGeometry.YInside | js/layout.js:80-110 | a node's row lies between 0 and the global maximum, so its y is strictly inside the height |
| LayoutGeometry.SlotSymmetric | js/layout.js:109 | slot i and slot count-1-i have opposite offsets |
| LayoutGeometry.SlotSumClosed | js/layout.js:109 | the first k offsets sum to (k*k - k*count)/2 slot widths |
| LayoutGeometry.SlotsCentred | js/layout.js:109 | the offsets of a row sum to 0 |
| LayoutGeometry.SlotWithinSpan | js/layout.js:93-109 | every offset lies strictly within plus or minus span/2 |
| LayoutGeometry.SlotInsideColumn | js/layout.js:92-109 | every slot centre lies strictly inside its column |
| LayoutGeometry.ColWPositive | js/layout.js:28 | a positive width gives a positive column width |
| LayoutGeometry.XInsideColumn | js/layout.js:88-111 | a node's x lies strictly inside its own column |
| LayoutCompute.GroupNodes | js/layout.js:17-22 | the Map has exactly the groups present, each with its nodes in input order |
| LayoutCompute.KeptInColumns | js/layout.js:25 | filtering ORDER by the Map's keys gives the present principles |
| LayoutCompute.ColumnOrderIsColumns | js/layout.js:25-26 | the column list built from the Map is the column order |
| LayoutCompute.RelaxPass | js/layout.js:49-62 | one pass of the `for` loop gives the depths and the change flag of `Pass` |
| LayoutCompute.RelaxGroup | js/layout.js:41-63 | the guarded `while` gives the result of `Relax`, after 1 to 200 passes, and exits still changing only after 200 |
| LayoutCompute.GroupDepths | js/layout.js:37-67 | each column's depth map and maximum depth are recorded |
| LayoutCompute.ColumnDepth | js/layout.js:40-66 | a column's depth map and maximum |
| LayoutCompute.BuildRows | js/layout.js:96-102 | the rows object has exactly the non-empty rows, each with its nodes in column order |
| LayoutCompute.PlaceRow | js/layout.js:105-112 | the row's ids are added; slot i gets (centre + offset i, (d+1)*yGap) for the last node with each id; other ids keep their positions |
| LayoutCompute.PlaceGroup | js/layout.js:95-113 | the column's ids are added; each node gets its bucket slot; other ids keep their positions |
| LayoutCompute.PlaceDepth | js/layout.js:104-113 | visiting depth d extends the placed rows by row d |
| LayoutCompute.ComputedMaxes | js/layout.js:69-84 | `basicMax` and `globalMaxDepth` from the recorded maxima are the layout's |
| LayoutCompute.PlaceColumn | js/layout.js:88-114 | after column gi, the columns up to gi are placed |
| LayoutCompute.ComputedAll | js/layout.js:86-116 | once every column is placed, every id has a position and each node has its layout position |
| LayoutCompute.Compute | js/layout.js:15-117 | the result has exactly the nodes' ids; with distinct ids each node gets the position the layout functions define |

## Left out

- JavaScript numbers are doubles.
  - Points, costs, stack levels and stat values are modelled as unbounded
    integers, including the `mul` stat effect.
  - Layout widths, heights and coordinates are modelled as exact reals, so
    rounding is not modelled.
- `Number(...)` coercion in `setPointsMax` and `getStacks`, and the `|| 0`
  guard on a non-numeric value, are not modelled. The inputs are integers.
- Node costs are non-negative (`nat`). The `?? 0` default for an absent
  cost is folded into the dataset value. Negative costs are not modelled.
- The node table is immutable, so the `structuredClone` copy in `init` is
  not modelled.
- The dataset fetch and `ruleset` parsing are not modelled. `maxPoints`
  reaches `init` as an optional integer.
- The JS `Set` of active ids is modelled as a duplicate-free sequence in
  insertion order.
- RuleEngine.ImportRoundTrip: stated for builds whose active ids, in
  their own order, form a purchase order under the exported cap. A build
  may fail that after `setPointsMax` lowered the cap, or after a refund
  took away principle points that a later node's stage needed. For such
  builds the model states only `ImportResultSpec`, not which ids come back.
- Reason strings are modelled as the `Reason` constructors. The dependent's
  label and the stage name are kept.
- `serialize` and `deserialize` (`js/engine.js:143-154`) are not modelled.
  They are `exportBuild` and `importBuild` followed by one more
  `recomputeStats`, and `ImportBuild` already ends with the stats
  recomputed.
- Reading and writing `localStorage` is not modelled, whether for stack
  levels, positions or layouts. Neither are the DOM, SVG, zoom/pan,
  tooltips and icon drawing of `js/app.js`.
  - The stack map loaded at start-up is whatever the `stacks` field holds.
    `ReconcileStacks` is proved for every such map.
- HostText.Lower: `toLowerCase` is modelled only for A-Z and Ã, the
  letters the stackable-label pattern looks for. Every other character is
  kept, and the pattern's letters and white space cannot arise from them.
  Full Unicode case mapping is not modelled.
- HostText.MentionsAura: the regular expression engine is not modelled.
  The pattern `/expans[aã]o\s+de\s+aura/` is written out as a recursive
  matcher.
- The `!groupNodes.length` guard in `compute` is not modelled. Every
  column of the list has at least one node, so the guard never fires.
- The numeric sort of `Object.keys(rows)` is modelled as a visit of the
  depths in ascending order, from the column's offset to offset + maximum
  depth. Depths with no row are skipped.
- LayoutCompute.Compute: the value of every position is stated only when
  node ids are distinct.
  - With duplicate ids, the Maps keep the last write, as in JavaScript.
  - The key set is still stated for every input.
- The layout's use in `js/app.js` is not modelled: the default and saved
  layouts that override computed positions, and the canvas size.
