# TetraVex in Dafny

A model of the TetraVex module: nine square blocks ("vex blocks") on a 3x3
grid. Each block carries four edge labels in Down, Left, Up, Right order.
The player touches slots to lift a block, to swap the held block with a
resting one, or to set it down in the empty slot. A check button then tests
whether every pair of touching edges agrees. The model covers:

- how the puzzle is generated from 24 label draws and a scramble;
- the touch state machine and the board invariant it keeps;
- the validator and what it decides;
- the forced solve, which chases cycles through the single empty slot until
  every block is home, then presses the check button;
- the Twitch Plays support: the two-character cell codes and the policy
  applied to a batch of commands.

Modules:

- `Blocks`: the `VexBlock` class and the `Meets` relation between two label
  quadruples.
- `Grid`: the board as a value (`Board`), its invariant `Inv` and the touch
  transition `Touch`.
- `Validation`: the display order, the validator's cell scan and
  `CheckOutcome`, with what a check decides.
- `Generation`: the labels generation writes (`HomeLabels`) and why the home
  layout passes.
- `Restore`: the "blocks away from home" measure behind the forced solve.
- `Game`: the `TetraVex` class, whose methods update the blocks, the held
  block, the open slot and the solved flag. Each method is proved against the
  `Grid`/`Validation` functions over `State()` and `Labels()`.
- `TwitchPlays`: cell codes, the command batch and its replay on the board.

## Model

| member | source | states |
|---|---|---|
| Blocks.VexBlock.constructor | Assets/TetraVexAssets/VexBlock.cs:14-17 | a new block has four zero labels, home 0 and position 0 |
| Blocks.VexBlock.SetFace | Assets/TetraVexAssets/VexBlock.cs:30-35 | the chosen label becomes the digit and the other three labels keep their values |
| Blocks.VexBlock.GetPosition | Assets/TetraVexAssets/VexBlock.cs:37-40 | returns the block's slot, -1 while it is held; reads only |
| Blocks.VexBlock.SetPosition | Assets/TetraVexAssets/VexBlock.cs:42-49 | afterwards `GetPosition()` returns the new slot, and no label changes |
| Blocks.VexBlock.PickUp | Assets/TetraVexAssets/VexBlock.cs:51-58 | from any prior position, `GetPosition()` returns -1 afterwards, and no label changes |
| Blocks.VexBlock.IsPositionOkay | Assets/TetraVexAssets/VexBlock.cs:60-67 | true exactly when the missing-or-lower neighbour's Up label equals this block's Down label and the missing-or-right neighbour's Left label equals this block's Right label; two missing neighbours always pass; reads only |
| Grid.TileAt | Assets/TetraVexAssets/TetraVex.cs:66-74 | finds the first block, in block order, resting in the slot, and finds none exactly when no block rests there |
| Grid.Touch | Assets/TetraVexAssets/TetraVex.cs:138-166 | the touch transition as a function of the board: once solved nothing changes; touching the empty slot rests the held block in the open slot; touching an occupied slot rests the held block there (or, from idle, opens that slot) and lifts the occupant. Its contract: the solved flag is kept, a solved board is returned as is, and no block moves except the held block and the touched slot's occupant |
| Grid.TileAtDistinct | Assets/TetraVexAssets/TetraVex.cs:66-74 | on distinct positions, the block found at a block's slot is that block |
| Grid.TouchKeepsInv | Assets/TetraVexAssets/TetraVex.cs:138-166 | every touch keeps the board invariant: at most one block lifted and it is the held one, resting blocks on distinct slots, something held exactly when the open slot is not -1, and while holding the only empty slot is the open one; a solved board ignores touches |
| Grid.PickUpFromIdle | Assets/TetraVexAssets/TetraVex.cs:156-164 | from idle, a touch lifts the touched block, makes its slot the open one, and no other slot changes |
| Grid.SwapWhileHolding | Assets/TetraVexAssets/TetraVex.cs:156-164 | while holding, touching an occupied slot rests the held block there and lifts the occupant; the open slot does not move and no other slot changes |
| Grid.PutDown | Assets/TetraVexAssets/TetraVex.cs:146-153 | while holding, touching the empty slot rests the held block in the open slot and returns to idle; no other slot changes |
| Grid.ExchangeByThreeTouches | Assets/TetraVexAssets/TetraVex.cs:292-299 | from idle, touching x, y, x with x != y exchanges exactly the blocks of x and y and ends idle |
| Validation.SortBySlot | Assets/TetraVexAssets/TetraVex.cs:58-61 | the result is sorted by slot and is a permutation of its input |
| Validation.DisplayOrder | Assets/TetraVexAssets/TetraVex.cs:56-63 | every block once, sorted by slot |
| Validation.CellOkay | Assets/TetraVexAssets/TetraVex.cs:201 | the validator's test of the cell: for cells 0..5 the block's Down label meets the Up label of the block three cells on, and for cells not in the right column its Right label meets the Left label of the next block; the bottom-right cell always passes, having neither neighbour |
| Validation.FirstBadCell | Assets/TetraVexAssets/TetraVex.cs:199-207 | the first cell from i up to 7 whose down or right test fails, and none exactly when every one of them passes |
| Validation.CheckOutcome | Assets/TetraVexAssets/TetraVex.cs:174-212 | a check reports nothing exactly when the module is already solved |
| Validation.AfterCheck | Assets/TetraVexAssets/TetraVex.cs:211-212 | a check moves no block; the solved flag is set by a pass and never cleared |
| Validation.CheckKeepsInv | Assets/TetraVexAssets/TetraVex.cs:168-214 | a check keeps the board invariant |
| Validation.PermutationDistinct | Assets/TetraVexAssets/TetraVex.cs:56-63 | a permutation of the blocks lists each block exactly once |
| Validation.HeldSortsFirst | Assets/TetraVexAssets/TetraVex.cs:177-178 | the first block in display order is lifted exactly when a block is held |
| Validation.IdleOrderIsGrid | Assets/TetraVexAssets/TetraVex.cs:56-63 | with nothing held, the k-th block in display order rests in slot k |
| Validation.CellIsSlot | Assets/TetraVexAssets/TetraVex.cs:199-201 | with nothing held, the validator's test of cell s is the test of the block in slot s against its lower and right neighbours |
| Validation.CheckWhileHolding | Assets/TetraVexAssets/TetraVex.cs:177-183 | a check while holding strikes and leaves the module unsolved |
| Validation.CheckPassIff | Assets/TetraVexAssets/TetraVex.cs:197-212 | with nothing held, a check passes exactly when all twelve internal adjacencies match, so scanning cells 0..7 is enough |
| Validation.CheckReportsFirstBadSlot | Assets/TetraVexAssets/TetraVex.cs:199-206 | a failing check names the first slot, in row-major order, whose block disagrees with its lower or right neighbour |
| Validation.AllZeroLabelsPass | Assets/TetraVexAssets/TetraVex.cs:199-212 | nine all-zero blocks pass in any arrangement |
| Validation.TopLeftMismatchReported | Assets/TetraVexAssets/TetraVex.cs:199-206 | a top-left block that disagrees with its right neighbour is a strike naming cell 0 |
| Generation.HomeLabels | Assets/TetraVexAssets/TetraVex.cs:84-109 | the labels generation writes: four per block |
| Generation.ColumnDraws | Assets/TetraVexAssets/TetraVex.cs:84-96 | column x takes draws 4x..4x+3 for its up and down labels, and each vertical shared edge carries one draw on both of its sides |
| Generation.RowDraws | Assets/TetraVexAssets/TetraVex.cs:97-109 | row r takes draws 12+4r..15+4r for its left and right labels, and each horizontal shared edge carries one draw on both of its sides |
| Generation.HomeLayout | Assets/TetraVexAssets/TetraVex.cs:116 | every block rests in its home slot |
| Generation.HomeLayoutMatches | Assets/TetraVexAssets/TetraVex.cs:84-109 | in the home layout, all twelve internal adjacencies of the generated labels match, and all 36 labels lie in [0, 8) |
| Generation.HomeLayoutPasses | Assets/TetraVexAssets/TetraVex.cs:84-109 | the home layout, with nothing held, satisfies the invariant and passes the check |
| Generation.ScrambleIsIdle | Assets/TetraVexAssets/TetraVex.cs:112-118 | placing the blocks by a permutation of 0..8 gives a board that satisfies the invariant with nothing held |
| Restore.Misplaced | Assets/TetraVexAssets/TetraVex.cs:324-337 | the count of blocks away from home is 0 exactly when every block is home |
| Restore.MisplacedUpdate | Assets/TetraVexAssets/TetraVex.cs:324-337 | moving one block changes the count by that block's own status only |
| Restore.LiftAwayBlock | Assets/TetraVexAssets/TetraVex.cs:327-330 | lifting a block that is away from home keeps the count, opens that block's slot, and moves no block that is home |
| Restore.SendHeldHome | Assets/TetraVexAssets/TetraVex.cs:340-345 | each inner press rests the held block in its home slot, keeps a block held and the open slot in place, and leaves one fewer block away; no block that is home moves |
| Restore.SetDownAtHome | Assets/TetraVexAssets/TetraVex.cs:347 | the final set-down rests the held block in its home slot (the open one), leaving nothing held and one fewer block away; no block that is home moves |
| Game.TetraVex.NewBlocks | Assets/TetraVexAssets/TetraVex.cs:37 | nine distinct fresh blocks, each with its own four-label array |
| Game.TetraVex.constructor | Assets/TetraVexAssets/TetraVex.cs:216-230 | a new module is valid and unsolved, holds nothing, rests the blocks by the scramble, and carries the generated labels |
| Game.TetraVex.GeneratePuzzle | Assets/TetraVexAssets/TetraVex.cs:81-118 | writes exactly the generated labels, rests block i in slot perm[i] and makes block i's home i |
| Game.TetraVex.WriteVerticalEdges | Assets/TetraVexAssets/TetraVex.cs:84-96 | every block's down and up labels are the generated ones, and its left and right labels keep their values |
| Game.TetraVex.WriteColumn | Assets/TetraVexAssets/TetraVex.cs:86-95 | one pass consumes four draws and labels the up and down sides of column x, keeping those blocks' left and right labels |
| Game.TetraVex.WriteHorizontalEdges | Assets/TetraVexAssets/TetraVex.cs:97-109 | every block's left and right labels are the generated ones, and its down and up labels are kept |
| Game.TetraVex.WriteRow | Assets/TetraVexAssets/TetraVex.cs:99-108 | one pass consumes four draws and labels the left and right sides of the row, leaving the down and up labels as they were |
| Game.TetraVex.VexAtPosition | Assets/TetraVexAssets/TetraVex.cs:66-74 | the search returns the block resting in the slot, or none |
| Game.TetraVex.VexesInDisplayOrder | Assets/TetraVexAssets/TetraVex.cs:56-63 | nine blocks in display order |
| Game.TetraVex.DisplayOrderSortsBlocks | Assets/TetraVexAssets/TetraVex.cs:56-63 | the display order is sorted by position and contains every block |
| Game.TetraVex.VexTargetInteract | Assets/TetraVexAssets/TetraVex.cs:138-166 | a touch moves the board exactly as `Touch` does, keeps the invariant, and writes no label |
| Game.TetraVex.SetHeldDown | Assets/TetraVexAssets/TetraVex.cs:146-153 | touching the empty slot moves the board exactly as `Touch` does: the held block rests in the open slot and nothing is held |
| Game.TetraVex.TakeUp | Assets/TetraVexAssets/TetraVex.cs:156-164 | touching an occupied slot moves the board exactly as `Touch` does: the held block takes the slot (the open slot stays), or from idle the slot becomes the open one, and the occupant is lifted |
| Game.TetraVex.Place | Assets/TetraVexAssets/TetraVex.cs:149 | rests one block in a slot and changes no other position |
| Game.TetraVex.Lift | Assets/TetraVexAssets/TetraVex.cs:163 | lifts one block and changes no other position |
| Game.TetraVex.CheckButtonPress | Assets/TetraVexAssets/TetraVex.cs:168-214 | reports `CheckOutcome` of the board and labels it found, and leaves the board as `AfterCheck` says |
| Game.TetraVex.Verdict | Assets/TetraVexAssets/TetraVex.cs:177-213 | on an unsolved module, the outcome is the held strike, the first misfit cell or a pass, as `CheckOutcome` decides |
| Game.TetraVex.FirstMisfit | Assets/TetraVexAssets/TetraVex.cs:199-207 | the scan through `IsPositionOkay` finds the first bad cell `FirstBadCell` names |
| Game.TetraVex.TwitchHandleForcedSolve | Assets/TetraVexAssets/TetraVex.cs:314-352 | started with nothing held, it ends with every block home and the check passing, using at most two touches per block away from home; once solved it does nothing |
| Game.TetraVex.RestoreAll | Assets/TetraVexAssets/TetraVex.cs:321-349 | the outer loop terminates with every block home, nothing held and no label changed |
| Game.TetraVex.FirstAwayBlock | Assets/TetraVexAssets/TetraVex.cs:323-334 | the first block away from home and its slot, or 9 when all are home |
| Game.TetraVex.RestoreCycle | Assets/TetraVexAssets/TetraVex.cs:327-348 | one cycle issues only valid touches, brings the block it started from home, moves no block that was already home, and strictly lowers the number of blocks away from home |
| TwitchPlays.UpperChar | Assets/TetraVexAssets/TetraVex.cs:240 | ASCII lower-case letters become upper case and every other character is kept |
| TwitchPlays.Upper | Assets/TetraVexAssets/TetraVex.cs:240 | upper-cases every character of the code |
| TwitchPlays.UpperIdempotent | Assets/TetraVexAssets/TetraVex.cs:240 | upper-casing twice is upper-casing once |
| TwitchPlays.ValidCode | Assets/TetraVexAssets/TetraVex.cs:284 | the code grammar of the swap command's two groups, in either case: a column letter A-C then a row digit 1-3, or a row letter T/M/B then a column letter L/M/R |
| TwitchPlays.TargetSlot | Assets/TetraVexAssets/TetraVex.cs:237-262 | every accepted code selects a slot in 0..8 |
| TwitchPlays.CodesSelectTheirSlot | Assets/TetraVexAssets/TetraVex.cs:243-259 | the coordinate code (letter - 'A') + 3 * (digit - '1') and the row/column code 3 * row + col of slot s are accepted and select s |
| TwitchPlays.CodeSpellsItsSlot | Assets/TetraVexAssets/TetraVex.cs:243-259 | upper-cased, every accepted code is one of the two codes of the slot it selects |
| TwitchPlays.CodeNamesSlot | Assets/TetraVexAssets/TetraVex.cs:237-262 | an accepted code selects slot s exactly when, upper-cased, it is one of the two codes of s |
| TwitchPlays.TargetSlotIgnoresCase | Assets/TetraVexAssets/TetraVex.cs:240 | a code and its upper-case form select the same slot |
| TwitchPlays.Batch | Assets/TetraVexAssets/TetraVex.cs:274-311 | the batch policy: a check is acknowledged, presses the check button and ends the batch; a swap is acknowledged, presses its cells and marks the batch valid; an unrecognised command is skipped until a command has been valid and then reported as an error that ends the batch. Its contract: only the last yield can be an error or a check-button press |
| TwitchPlays.SwapPresses | Assets/TetraVexAssets/TetraVex.cs:292-300 | a swap presses nothing when both codes select the same slot, and otherwise presses the first, the second, then the first again |
| TwitchPlays.ProcessTwitchCommand | Assets/TetraVexAssets/TetraVex.cs:268-312 | the command loop yields exactly what the batch policy `Batch` prescribes |
| TwitchPlays.LeadingUnrecognisedSkipped | Assets/TetraVexAssets/TetraVex.cs:305-309 | an unrecognised command before any valid one is skipped |
| TwitchPlays.UnrecognisedAfterSwapStops | Assets/TetraVexAssets/TetraVex.cs:305-309 | after a valid command, an unrecognised one yields an error and nothing after it runs |
| TwitchPlays.CheckEndsBatch | Assets/TetraVexAssets/TetraVex.cs:276-283 | nothing after a check runs: the commands that follow it add nothing to the batch |
| TwitchPlays.SwapsThenCheck | Assets/TetraVexAssets/TetraVex.cs:276-282 | a run of swaps followed by a check yields the swaps' output, then an acknowledgement and a press of the check button |
| TwitchPlays.SelfSwapPressesNothing | Assets/TetraVexAssets/TetraVex.cs:292-293 | a swap of a cell with itself is acknowledged and presses nothing |
| TwitchPlays.PressesInRange | Assets/TetraVexAssets/TetraVex.cs:286-299 | every slot the batch presses lies in 0..8 |
| TwitchPlays.Replay | Assets/TetraVexAssets/TetraVex.cs:295-299 | playing the yielded presses on a board keeps the invariant |
| TwitchPlays.SwapOfTwoCells | Assets/TetraVexAssets/TetraVex.cs:286-300 | a swap of two different cells yields an acknowledgement and the presses first, second, first |
| TwitchPlays.ReplayThreePresses | Assets/TetraVexAssets/TetraVex.cs:295-299 | replaying those presses is three touches |
| TwitchPlays.SwapCommandExchanges | Assets/TetraVexAssets/TetraVex.cs:284-303 | on an idle, unsolved board, a swap command of two different cells exchanges exactly their two blocks and ends idle |

## Left out

- Presentation is not modelled: animations, materials and `TextMesh` labels in `SetFace`, sounds, the interaction punch and the check button's animator.
- Logging is not modelled: the log lines, `BlockLineToStrings`, the position names and the per-module log ID counter. A failing check returns the index of the failing cell instead of its name.
- Randomness is a parameter. The constructor takes the 24 label draws, in the order generation consumes them, and the scramble as a permutation of 0..8. The `Shuffle` extension is not part of this model.
- `HandleStrike` and `HandlePass` become the returned `Outcome` (`NoOp`, `StrikeHeld`, `Strike(cell)` or `Pass`). The constant `false` that `VexTargetInteract` and `CheckButtonPress` return to the host is not modelled.
- `Awake`'s wiring of the touch and check delegates is not modelled. The constructor stands for it and then generates the puzzle.
- Coroutine pacing is partly modelled. `yield return null` is kept as `Acknowledge`; only the `WaitForSeconds` waits and the one-frame delay are not modelled. The forced solve is a loop of calls to `VexTargetInteract`, and a command batch is the list of values it would yield.
- The regular expressions that classify each command, and the split on `;`, are not modelled. `ProcessTwitchCommand` takes the commands already classified as `CheckCommand`, `SwapCommand(a, b)` or `Unrecognised(text)`, and every swap's codes satisfy `ValidCode`.
- TwitchPlays.TargetSlot: returns the slot index instead of the button selectable. For codes the grammar rejects it promises no range, because the source can index the button array out of range there (e.g. `Z1` gives 25).
- TwitchPlays.UpperChar: upper-cases ASCII letters only. The culture rules of `ToUpper` beyond ASCII are not modelled; codes are ASCII.
- The error yield is `ChatError(command)`, which carries the offending command instead of the formatted chat message.
- Game.TetraVex.TwitchHandleForcedSolve: requires nothing to be held. Started while holding, the source may index the button array at -1 (TetraVex.cs:330) or dereference a null held block (TetraVex.cs:340).
- Game.TetraVex.TwitchHandleForcedSolve: `touches` is a ghost counter of the touches issued, kept only to state the bound.
- The sort comparison subtracts positions, and positions lie in -1..8, so no overflow can occur. Positions are distinct under the invariant, so the stability of the sort does not matter. The model sorts by insertion.
- Aliasing is not modelled: `vexes` is a sequence of distinct block objects that is never reassigned. The held block is an index into it, not a reference.
- `positions` is a ghost mirror of the blocks' positions, kept equal to them by `Coupled()`, so that the board can be stated as a value.
