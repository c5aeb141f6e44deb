# AlignmentManager: aligning the dynamic expressions of a staff line

This project models `AlignmentManager.alignDynamicExpressions` of the
music-notation renderer. It also models the two box-edge helpers,
`getDistance` and `getOverlap`. The project proves properties of the model.

The pass works on one staff line's ordered list of graphical expressions:
dynamics such as *p*, *f* and *mf*, crescendo/diminuendo wedges, and the like.
It does three things in order:

1. **Grouping.** It scans adjacent pairs left to right and collects close marks in an
   accumulator (`tmpList`).
   - A pair where either mark lacks a source expression is skipped.
   - A pair with different placements is skipped and does not close the accumulator.
   - An eligible same-placement pair is either *close* (`distance.x < DynamicExpressionMaxDistance`)
     or *far*:
     - a close pair adds its marks to the accumulator;
     - a far pair emits the accumulator as a group and starts a new one.
   - The last accumulator is always emitted.
2. **Vertical alignment.** This step runs only on groups that hold a non-verbal continuous
   dynamic (a wedge). Each member is snapped towards the maximum of the members' centre-y values,
   all captured before anything moves:
   - a VexFlow continuous dynamic gets `shiftYPosition(yIdeal - centre)` and then `calcPsi()`;
   - any other mark has its relative y raised by 0.8 of that amount and its bounding box
     recomputed.
3. **Squeeze requests.** A VexFlow continuous dynamic is squeezed first against its next
   member, by `-(overlap.x + spacer)`, and then against its previous member, by
   `overlap.x + spacer`. Each overlap is measured on the boxes as they are at that moment.

## Structure

| Module | File | What it holds |
|---|---|---|
| `Geometry` | `geometry.dfy` | Bounding boxes, `getDistance`, `getOverlap` |
| `Expressions` | `expressions.dfy` | The expressions of a staff line, the engraving rules, the foreign operations, the requests |
| `Grouping` | `grouping.dfy` | The grouping loop as a fold (`ScanPairs`, `Groups`) and its properties |
| `Alignment` | `alignment.dfy` | The member loop, the group loop and the whole pass as functions (`AlignMembers`, `AlignGroups`, `Aligned`), with their properties |
| `Manager` | `manager.dfy` | The imperative code: the `AlignmentManager` class and its loops, working in place on an `array<Expression>` |

How the model represents the source:
- Each loop of the source is a method in `Manager`. Each method is proved equal to the function
  that specifies it.
- The properties are proved about those functions.
- The foreign operations are function-valued fields of `Collaborators`: `Center.y`,
  `shiftYPosition` + `calcPsi`, `squeeze` and `calculateBoundingBox`.
- Every call into a VexFlow continuous dynamic is recorded as a `Request`, naming the expression
  by its index on the staff line. `AlignDynamicExpressions` returns these requests in order.

### Behaviour that may surprise

- A group can mix placements. A pair with different placements is skipped (line 48 has no
  else branch), so it does not close the accumulator. `Grouping.MixedPlacementsShareGroup`
  shows a four-mark line, two above and two below, that forms the single group `[0, 1, 2, 3]`.
- A staff line with 0 or 1 expressions yields exactly one group, and it is empty: the loop
  does not run and line 63 pushes the empty accumulator.
- A member's left overlap (line 116) is measured after the member's own right squeeze
  (line 113), and against the previous member's final box.

## Model

All source cells refer to `src/MusicalScore/Graphical/VexFlow/AlignmentManager.ts`.

| member | source | states |
|---|---|---|
| Geometry.Distance | src/MusicalScore/Graphical/VexFlow/AlignmentManager.ts:130-137 | Moving a's right border by d.x reaches b's left border, and moving a's bottom border by d.y reaches b's top border. A component is negative exactly when the boxes overlap on that axis. |
| Geometry.Overlap | src/MusicalScore/Graphical/VexFlow/AlignmentManager.ts:144-147 | The overlap is the componentwise negation of the distance. Its x component is positive exactly when a's right border lies past b's left border; likewise for y with bottom and top. |
| Geometry.WithMargins | src/MusicalScore/Graphical/VexFlow/AlignmentManager.ts:105 | Recomputing a bounding box keeps its relative position, and its borders become that position plus the new margins. |
| Grouping.Step | src/MusicalScore/Graphical/VexFlow/AlignmentManager.ts:22-60 | Close pair: the groups are unchanged, the accumulator keeps its old contents as a prefix, holds the current mark, ends with the next mark, and grows by one (current mark already present) or by two. Far pair: the accumulator is emitted and a fresh one is empty. Any other pair, including one with a missing source or with different placements, leaves the state unchanged. |
| Grouping.ScanPairs | src/MusicalScore/Graphical/VexFlow/AlignmentManager.ts:22-61 | The grouping loop after its first k pairs: at most one group is emitted per pair. Its contents are characterised by Grouping.ScanInvariant, Grouping.CloseStaysTogether and Grouping.FarSeparates, and Manager.FindGroups is proved equal to it. |
| Grouping.Groups | src/MusicalScore/Graphical/VexFlow/AlignmentManager.ts:22-63 | The groups of the staff line: at least one (the final push of line 63) and at most one more than the number of pairs. Characterised by Grouping.GroupCount, Grouping.GroupsWellFormed, Grouping.GroupsIndexLine, Grouping.CloseTogether and Grouping.FarApart. |
| Grouping.ScanInvariant | src/MusicalScore/Graphical/VexFlow/AlignmentManager.ts:22-61 | After every prefix of the scan: the groups plus the accumulator are strictly increasing; every listed mark has a source; every mark in an emitted group lies before the scan position, and every mark in the accumulator lies at or before it; no group and no accumulator has exactly one member. |
| Grouping.GroupCount | src/MusicalScore/Graphical/VexFlow/AlignmentManager.ts:51-63 | The number of groups is 1 plus the number of eligible, same-placement, far pairs. |
| Grouping.GroupsWellFormed | src/MusicalScore/Graphical/VexFlow/AlignmentManager.ts:51-63 | The concatenated groups list each mark at most once, in strictly increasing index order. Every listed mark has a source, and no group has exactly one member. |
| Grouping.GroupsIndexLine | src/MusicalScore/Graphical/VexFlow/AlignmentManager.ts:20-63 | Every group is an increasing list of indices into the line, naming marks that have a source. Every member of an earlier group lies before every member of a later one. |
| Grouping.ShortLineSingleEmptyGroup | src/MusicalScore/Graphical/VexFlow/AlignmentManager.ts:22-63 | A line of 0 or 1 expressions yields exactly one group, and it is empty. |
| Grouping.CloseTogether | src/MusicalScore/Graphical/VexFlow/AlignmentManager.ts:48-55 | The two marks of a close pair end up in one group. |
| Grouping.CloseStaysTogether | src/MusicalScore/Graphical/VexFlow/AlignmentManager.ts:48-63 | Once a close pair has been scanned, its marks stay together, in the accumulator or in one emitted group, through every later step. |
| Grouping.FarSeparates | src/MusicalScore/Graphical/VexFlow/AlignmentManager.ts:56-59 | After a far pair, the groups emitted up to it never change again. Every later group, and the accumulator, holds only marks after the pair's first mark. |
| Grouping.FarApart | src/MusicalScore/Graphical/VexFlow/AlignmentManager.ts:56-59 | The two marks of a far pair never share a group. |
| Grouping.MixedPlacementsShareGroup | src/MusicalScore/Graphical/VexFlow/AlignmentManager.ts:48-60 | Two close marks above the staff, followed by two close marks below, form one group of all four indices. |
| Alignment.MaxOf | src/MusicalScore/Graphical/VexFlow/AlignmentManager.ts:83 | `Math.max` of a non-empty list is one of its elements and is at least every element. |
| Alignment.GroupHasWedge | src/MusicalScore/Graphical/VexFlow/AlignmentManager.ts:68-74 | The group holds a non-verbal continuous dynamic. Manager.HasWedges, the flag loop with its break, is proved equal to it. |
| Alignment.CenterYs | src/MusicalScore/Graphical/VexFlow/AlignmentManager.ts:81 | One centre y per member, in group order, all read from the line as it is before the member loop; Alignment.AlignedMember shows they are read from the original staff line. |
| Alignment.Shifted | src/MusicalScore/Graphical/VexFlow/AlignmentManager.ts:97-106 | The shift of one member; keeps the line's length. Its effect on a member is characterised by Alignment.AlignedWedge and Alignment.AlignedLabel. |
| Alignment.SqueezeToNext | src/MusicalScore/Graphical/VexFlow/AlignmentManager.ts:111-114 | The right squeeze of one member by `-(overlap with the next member + spacer)`; keeps the line's length. Characterised by Alignment.AlignedWedge. |
| Alignment.SqueezeToPrev | src/MusicalScore/Graphical/VexFlow/AlignmentManager.ts:115-118 | The left squeeze of one member by `overlap of the previous member with it + spacer`; keeps the line's length. Characterised by Alignment.AlignedWedge. |
| Alignment.Squeezes | src/MusicalScore/Graphical/VexFlow/AlignmentManager.ts:108-119 | The right squeeze, if there is a next member, then the left squeeze, if there is a previous member; keeps the line's length. Characterised by Alignment.AlignedWedge. |
| Alignment.MemberStep | src/MusicalScore/Graphical/VexFlow/AlignmentManager.ts:93-119 | One iteration of the member loop; keeps the line's length. Alignment.GroupPassTouches and Alignment.GroupPassLocal give its frame; Alignment.AlignedWedge and Alignment.AlignedLabel its outcome. |
| Alignment.AlignMembers | src/MusicalScore/Graphical/VexFlow/AlignmentManager.ts:92-120 | The member loop after its first k iterations; keeps the line's length. Characterised by Alignment.GroupPassTouches, Alignment.AlignedWedge and Alignment.AlignedLabel. |
| Alignment.AlignedGroup | src/MusicalScore/Graphical/VexFlow/AlignmentManager.ts:79-121 | An aligned group: centres captured, their maximum taken, then the member loop; keeps the line's length. Characterised by Alignment.AlignedWedge, Alignment.AlignedLabel and Alignment.AlignedAtMaximum. |
| Alignment.GroupPass | src/MusicalScore/Graphical/VexFlow/AlignmentManager.ts:65-121 | One iteration of the loop over groups: a group without a wedge is skipped; keeps the line's length. Characterised by Alignment.AlignedWithoutWedge, Alignment.GroupPassTouches, Alignment.GroupPassLocal and Alignment.PassOfLocal. |
| Alignment.AlignGroups | src/MusicalScore/Graphical/VexFlow/AlignmentManager.ts:65-122 | The loop over groups after its first g iterations, for any group pass; keeps the line's length. Characterised by Alignment.AlignGroupsMember and Alignment.AlignGroupsShape. |
| Alignment.Aligned | src/MusicalScore/Graphical/VexFlow/AlignmentManager.ts:18-122 | The whole pass on a staff line; keeps its length. Characterised by Alignment.AlignedMember, Alignment.AlignedUngrouped, Alignment.AlignedOnlyMovesBoxes, Alignment.AlignedLineWedge, Alignment.AlignedLineLabel, Alignment.AlignedWithoutWedge and Alignment.AlignedShortLine. |
| Alignment.GroupPassTouches | src/MusicalScore/Graphical/VexFlow/AlignmentManager.ts:65-121 | One group's pass changes only the boxes of its own members, and every request it issues names one of them. |
| Alignment.GroupPassLocal | src/MusicalScore/Graphical/VexFlow/AlignmentManager.ts:79-120 | A group's pass depends only on its own members: two lines that agree on them give members and requests that agree on them. |
| Alignment.AlignedLabel | src/MusicalScore/Graphical/VexFlow/AlignmentManager.ts:79-106 | In an aligned group, a member that is not a VexFlow continuous dynamic has a centre at or below the maximum. Its relative y rises by exactly 0.8 of the difference, its bounding box is recomputed at the new position, and no request names it. |
| Alignment.AlignedWedge | src/MusicalScore/Graphical/VexFlow/AlignmentManager.ts:79-119 | In an aligned group, a VexFlow continuous dynamic has a centre at or below the maximum, and its requests are exactly these, in order: the shift by the difference; then, only if it has a next member, the right squeeze `-(overlap + spacer)` measured after its shift; then, only if it has a previous member, the left squeeze `overlap + spacer` measured after its right squeeze and against the previous member's final box. Its final box is the result of those calls. |
| Alignment.AlignedAtMaximum | src/MusicalScore/Graphical/VexFlow/AlignmentManager.ts:92-106 | A member whose centre equals the maximum gets a zero shift. For a VexFlow continuous dynamic, its first request is a shift by 0; for any other mark, its relative y is unchanged. |
| Alignment.AlignGroupsMember | src/MusicalScore/Graphical/VexFlow/AlignmentManager.ts:65-77 | In the loop over groups, for any group pass that keeps the line's length and is local to its group, a mark that belongs to only one group ends with the box that group's pass gave it. Its requests are the ones it started with, followed by that pass's requests. |
| Alignment.AlignGroupsShape | src/MusicalScore/Graphical/VexFlow/AlignmentManager.ts:65-77 | If each group pass changes nothing but boxes, then so does the whole loop over groups. |
| Alignment.PassOfLocal | src/MusicalScore/Graphical/VexFlow/AlignmentManager.ts:65-121 | The group pass keeps the line's length and changes nothing but boxes. It leaves every mark outside its group alone and issues no request naming one. |
| Alignment.AlignedMember | src/MusicalScore/Graphical/VexFlow/AlignmentManager.ts:18-122 | On the whole staff line, a member of a group ends as that group's pass, run on the original line, leaves it. Its requests are that pass's requests, so earlier groups never disturb it. |
| Alignment.AlignedUngrouped | src/MusicalScore/Graphical/VexFlow/AlignmentManager.ts:18-122 | A mark in no group is unchanged, and no request names it. |
| Alignment.AlignedOnlyMovesBoxes | src/MusicalScore/Graphical/VexFlow/AlignmentManager.ts:18-122 | The pass keeps the line's length and every mark's placement, source and kind; only boxes change. |
| Alignment.AlignedLineWedge | src/MusicalScore/Graphical/VexFlow/AlignmentManager.ts:18-119 | AlignedWedge holds for every VexFlow continuous dynamic of every aligned group of the whole staff line. |
| Alignment.AlignedLineLabel | src/MusicalScore/Graphical/VexFlow/AlignmentManager.ts:18-106 | AlignedLabel holds for every other member of every aligned group of the whole staff line. |
| Alignment.AlignedWithoutWedge | src/MusicalScore/Graphical/VexFlow/AlignmentManager.ts:65-77 | Every member of a group without a wedge is unchanged, and no request names it. |
| Alignment.AlignedShortLine | src/MusicalScore/Graphical/VexFlow/AlignmentManager.ts:22-77 | A staff line of 0 or 1 expressions is left exactly as it was, and no request is issued. |
| Manager.FindGroups | src/MusicalScore/Graphical/VexFlow/AlignmentManager.ts:20-63 | The grouping loop over the array returns exactly `Groups` of the line. |
| Manager.HasWedges | src/MusicalScore/Graphical/VexFlow/AlignmentManager.ts:68-74 | The flag loop is true exactly when some member of the group is a non-verbal continuous dynamic. |
| Manager.ShiftMember | src/MusicalScore/Graphical/VexFlow/AlignmentManager.ts:97-106 | The new array and the requests are `Shifted` of the old ones. |
| Manager.SqueezeRight | src/MusicalScore/Graphical/VexFlow/AlignmentManager.ts:111-114 | The new array and the requests are `SqueezeToNext` of the old ones. |
| Manager.SqueezeLeft | src/MusicalScore/Graphical/VexFlow/AlignmentManager.ts:115-118 | The new array and the requests are `SqueezeToPrev` of the old ones. |
| Manager.AlignMember | src/MusicalScore/Graphical/VexFlow/AlignmentManager.ts:93-119 | One iteration of the member loop on the array is `MemberStep`. |
| Manager.AlignGroup | src/MusicalScore/Graphical/VexFlow/AlignmentManager.ts:79-121 | The member loop, with centres captured before it, leaves the array and issues the requests given by `AlignedGroup` of the old array. |
| Manager.AlignAllGroups | src/MusicalScore/Graphical/VexFlow/AlignmentManager.ts:65-122 | The loop over groups leaves the array and issues the requests given by `AlignGroups` of the old array. |
| Manager.AlignmentManager.constructor | src/MusicalScore/Graphical/VexFlow/AlignmentManager.ts:13-16 | The manager holds the given staff line and engraving rules. |
| Manager.AlignmentManager.AlignDynamicExpressions | src/MusicalScore/Graphical/VexFlow/AlignmentManager.ts:18-123 | The staff line after the call, and the requests issued, are `Aligned` of the staff line before it. The `Alignment.Aligned*` lemmas state what that means. |

## Left out

- The internals of `shiftYPosition`, `calcPsi`, `squeeze`, `Center` and `calculateBoundingBox`
  belong to other classes. They are opaque functions: `shiftYPosition` + `calcPsi` and `squeeze`
  of the expression's index, its current box and the amount; `Center.y` and
  `calculateBoundingBox` of the box. The model assumes each call changes only the box of the
  expression it is called on.
- Nothing is claimed about the overlap after squeezing, because the squeeze geometry is not
  visible. No group is claimed to have a single placement, because the code does not
  guarantee it.
- `calculateBoundingBox` is modelled as yielding only new border margins: the relative position
  it is called after is kept.
- `Center.y` is modelled as a function of the box alone.
- Floating-point rounding is not modelled. Coordinates, offsets and the factor 0.8 are exact
  reals.
- The engraving rules are not looked up through `ParentMusicSystem.rules` (line 15). The
  constructor takes the two values the pass reads: `DynamicExpressionMaxDistance` and
  `DynamicExpressionSpacer`.
- The commented-out `calcPsi` and debug blocks (lines 29-46 and 84-90) are not modelled.
  Rendering, drawing and skyline updates are not modelled either.
- Object identity is not modelled: each array slot is a distinct expression. `tmpList.indexOf`
  becomes membership of the slot's index. The same object listed twice on a staff line is not
  modelled.
- An undefined list entry and an entry whose `SourceExpression` is undefined are both modelled
  as `hasSource == false`. Grouped marks always have a source, which `Grouping.GroupsIndexLine`
  proves.
- The run-time test `(expr as VexFlowContinuousDynamicExpression).squeeze` (line 108) is
  modelled as the kind `VexFlowContinuous`. The model assumes that only
  VexFlowContinuousDynamicExpression has a `squeeze` method. If another
  GraphicalContinuousDynamicExpression had one, the source would squeeze it too, and the model
  does not.
- Placement is compared only for equality. An undefined placement is `None`, and two undefined
  placements compare equal, as `===` does.
- `Alignment.PassOf` has a second branch for a group that does not index the line. The pass
  never takes it, by `Grouping.GroupsIndexLine`.
