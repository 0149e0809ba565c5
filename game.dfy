/** The TetraVex module itself: nine blocks, the held block and the open slot,
    the solved flag, and the operations the host calls on it. */
module Game {
  import opened Wrappers
  import opened Blocks
  import opened Grid
  import opened Validation
  import opened Generation
  import opened Restore

  class TetraVex {
    /** The nine blocks; block i's home is slot i. */
    const vexes: seq<VexBlock>
    var currentlyHeldVex: Option<nat>
    var openPosition: int
    var moduleSolved: bool
    /** The label draws generation consumed. */
    ghost const draws: seq<int>
    /** Every block's slot, mirrored from the blocks. */
    ghost var positions: seq<int>

    /** Nine distinct blocks, each with its own four-label array. */
    ghost predicate Wellformed() {
      && |vexes| == 9
      && (forall i, j :: 0 <= i < j < 9 ==> vexes[i] != vexes[j])
      && (forall i, j :: 0 <= i < j < 9 ==> vexes[i].digits != vexes[j].digits)
      && (forall i :: 0 <= i < 9 ==> vexes[i].digits.Length == 4)
    }

    /** The label arrays of the blocks. */
    ghost function Faces(): (faces: set<array<int>>)
      ensures forall i :: 0 <= i < |vexes| ==> vexes[i].digits in faces
    {
      set i | 0 <= i < |vexes| :: vexes[i].digits
    }

    function Positions(): (p: seq<int>)
      reads vexes
      ensures |p| == |vexes| && forall i :: 0 <= i < |vexes| ==> p[i] == vexes[i].position
    {
      seq(|vexes|, i requires 0 <= i < |vexes| reads vexes => vexes[i].position)
    }

    ghost function Labels(): (labels: seq<seq<int>>)
      reads Faces()
      ensures |labels| == |vexes| && forall i :: 0 <= i < |vexes| ==> labels[i] == vexes[i].digits[..]
    {
      seq(|vexes|, i requires 0 <= i < |vexes| reads Faces() => vexes[i].digits[..])
    }

    /** The mirror agrees with every block's position. */
    ghost predicate Coupled()
      reads this`positions, vexes
    {
      && Wellformed()
      && |positions| == 9
      && forall i :: 0 <= i < 9 ==> vexes[i].position == positions[i]
    }

    /** The board as a value. */
    ghost function State(): (b: Board)
      reads this
    {
      Board(positions, currentlyHeldVex, openPosition, moduleSolved)
    }

    /** The board invariant holds and every block's home is its index. */
    ghost predicate Valid()
      reads this, vexes
    {
      && Coupled()
      && Inv(State())
      && (forall i :: 0 <= i < 9 ==> vexes[i].idealPosition == i)
      && ValidDraws(draws)
    }

    /** The labels are the ones generation wrote; no operation after
        construction writes a label array. */
    ghost predicate Generated()
      requires Wellformed()
      reads vexes, Faces()
    {
      |draws| == 24 && forall i :: 0 <= i < 9 ==> vexes[i].digits[..] == HomeLabels(draws)[i]
    }

    /** The nine block objects of the module, each with its own label array. */
    static method NewBlocks() returns (tiles: seq<VexBlock>)
      ensures |tiles| == 9
      ensures forall i :: 0 <= i < 9 ==> fresh(tiles[i]) && fresh(tiles[i].digits)
      ensures forall i :: 0 <= i < 9 ==> tiles[i].digits.Length == 4
      ensures forall i, j :: 0 <= i < j < 9 ==> tiles[i] != tiles[j]
      ensures forall i, j :: 0 <= i < j < 9 ==> tiles[i].digits != tiles[j].digits
    {
      tiles := [];
      while |tiles| < 9
        invariant |tiles| <= 9
        invariant forall i :: 0 <= i < |tiles| ==> fresh(tiles[i]) && fresh(tiles[i].digits)
        invariant forall i :: 0 <= i < |tiles| ==> tiles[i].digits.Length == 4
        invariant forall i, j :: 0 <= i < j < |tiles| ==> tiles[i] != tiles[j]
        invariant forall i, j :: 0 <= i < j < |tiles| ==> tiles[i].digits != tiles[j].digits
      {
        var v := new VexBlock();
        tiles := tiles + [v];
      }
    }

    /** A fresh module: nine blocks, nothing held, not solved, and a generated
        puzzle from the given label draws and scramble. */
    constructor (draws: seq<int>, perm: seq<int>)
      requires ValidDraws(draws) && IsPermutation(perm)
      ensures Valid() && Generated()
      ensures forall i :: 0 <= i < 9 ==> fresh(vexes[i]) && fresh(vexes[i].digits)
      ensures State() == Board(perm, None, -1, false)
      ensures Labels() == HomeLabels(draws)
    {
      var tiles := NewBlocks();
      vexes := tiles;
      this.draws := draws;
      currentlyHeldVex := None;
      openPosition := -1;
      moduleSolved := false;
      new;
      positions := perm;
      ScrambleIsIdle(perm);
      GeneratePuzzle(draws, perm);
    }

    /** Writes the generated labels and the scrambled positions: first the
        vertical edges column by column, then the horizontal edges row by row,
        each shared edge getting one draw on both of its sides; then every
        block's home is its index and its slot is given by the scramble. */
    method GeneratePuzzle(draws: seq<int>, perm: seq<int>)
      requires Wellformed() && |draws| == 24 && |perm| == 9
      modifies vexes, Faces()
      ensures Labels() == HomeLabels(draws)
      ensures forall i :: 0 <= i < 9 ==> vexes[i].position == perm[i] && vexes[i].idealPosition == i
    {
      var home := HomeLabels(draws);
      WriteVerticalEdges(draws);
      WriteHorizontalEdges(draws);
      forall j | 0 <= j < 9 ensures vexes[j].digits[..] == home[j] {
        assert vexes[j].digits[..] == [vexes[j].digits[0], vexes[j].digits[1], vexes[j].digits[2], vexes[j].digits[3]];
      }
      assert Labels() == home;

      var i := 0;
      while i < 9
        modifies vexes
        invariant 0 <= i <= 9
        invariant forall j :: 0 <= j < i ==> vexes[j].idealPosition == j && vexes[j].position == perm[j]
      {
        vexes[i].idealPosition := i;
        vexes[i].SetPosition(perm[i]);
        i := i + 1;
      }
    }

    /** The first generation loop: column x takes draws 4x .. 4x+3 for the up
        and down labels of its three blocks. */
    method WriteVerticalEdges(draws: seq<int>)
      requires Wellformed() && |draws| == 24
      modifies Faces()
      ensures forall j :: 0 <= j < 9 ==> vexes[j].Carries(Down.Index(), Up.Index(), HomeLabels(draws)[j])
      ensures forall j :: 0 <= j < 9 ==>
        vexes[j].digits[1] == old(vexes[j].digits[1]) && vexes[j].digits[3] == old(vexes[j].digits[3])
    {
      var home := HomeLabels(draws);
      var next := 0;
      var x := 0;
      while x < 3
        modifies Faces()
        invariant 0 <= x <= 3 && next == 4 * x
        invariant forall j :: 0 <= j < 9 && (j < x || 3 <= j < 3 + x || 6 <= j < 6 + x) ==>
          vexes[j].Carries(0, 2, home[j])
        invariant forall j :: 0 <= j < 9 ==>
          vexes[j].digits[1] == old(vexes[j].digits[1]) && vexes[j].digits[3] == old(vexes[j].digits[3])
      {
        next := WriteColumn(draws, x, next);
        x := x + 1;
      }
    }

    /** One pass of the first generation loop: the four draws from `next` on
        label the top edge, the two shared edges and the bottom edge of
        column x. */
    method WriteColumn(draws: seq<int>, x: nat, next: nat) returns (after: nat)
      requires Wellformed() && |draws| == 24
      requires x < 3 && next == 4 * x
      modifies vexes[x].digits, vexes[x + 3].digits, vexes[x + 6].digits
      ensures after == next + 4
      ensures vexes[x].Carries(0, 2, HomeLabels(draws)[x])
      ensures vexes[x + 3].Carries(0, 2, HomeLabels(draws)[x + 3])
      ensures vexes[x + 6].Carries(0, 2, HomeLabels(draws)[x + 6])
      ensures forall j :: j == x || j == x + 3 || j == x + 6 ==>
        vexes[j].digits[1] == old(vexes[j].digits[1]) && vexes[j].digits[3] == old(vexes[j].digits[3])
    {
      ColumnDraws(draws, x);
      var digit: int;
      after := next;
      digit := draws[after];
      after := after + 1;
      vexes[x].SetFace(2, digit);
      digit := draws[after];
      after := after + 1;
      vexes[x].SetFace(0, digit);
      vexes[x + 3].SetFace(2, digit);
      digit := draws[after];
      after := after + 1;
      vexes[x + 3].SetFace(0, digit);
      vexes[x + 6].SetFace(2, digit);
      digit := draws[after];
      after := after + 1;
      vexes[x + 6].SetFace(0, digit);
    }

    /** The second generation loop: row y/3 takes draws 12+4(y/3) .. 15+4(y/3)
        for the left and right labels of its three blocks, leaving the up and
        down labels as they were. */
    method WriteHorizontalEdges(draws: seq<int>)
      requires Wellformed() && |draws| == 24
      requires forall j :: 0 <= j < 9 ==> vexes[j].Carries(Down.Index(), Up.Index(), HomeLabels(draws)[j])
      modifies Faces()
      ensures forall j :: 0 <= j < 9 ==> vexes[j].Carries(Down.Index(), Up.Index(), HomeLabels(draws)[j])
      ensures forall j :: 0 <= j < 9 ==> vexes[j].Carries(Left.Index(), Right.Index(), HomeLabels(draws)[j])
    {
      var home := HomeLabels(draws);
      var next := 12;
      var y := 0;
      while y < 9
        modifies Faces()
        invariant (y == 0 || y == 3 || y == 6 || y == 9) && 3 * next == 36 + 4 * y
        invariant forall j :: 0 <= j < 9 ==> vexes[j].Carries(0, 2, home[j])
        invariant forall j :: 0 <= j < y ==> vexes[j].Carries(1, 3, home[j])
      {
        next := WriteRow(draws, y, next);
        y := y + 3;
      }
    }

    /** One pass of the second generation loop: the four draws from `next` on
        label the outer left edge, the two shared edges and the outer right
        edge of the row whose first block is y. */
    method WriteRow(draws: seq<int>, y: nat, next: nat) returns (after: nat)
      requires Wellformed() && |draws| == 24
      requires (y == 0 || y == 3 || y == 6) && 3 * next == 36 + 4 * y
      modifies vexes[y].digits, vexes[y + 1].digits, vexes[y + 2].digits
      ensures after == next + 4
      ensures forall j :: y <= j < y + 3 ==> vexes[j].Carries(1, 3, HomeLabels(draws)[j])
      ensures forall j :: y <= j < y + 3 ==> vexes[j].digits[0] == old(vexes[j].digits[0])
      ensures forall j :: y <= j < y + 3 ==> vexes[j].digits[2] == old(vexes[j].digits[2])
    {
      RowDraws(draws, y / 3);
      var digit: int;
      after := next;
      digit := draws[after];
      after := after + 1;
      vexes[y].SetFace(1, digit);
      digit := draws[after];
      after := after + 1;
      vexes[y].SetFace(3, digit);
      vexes[y + 1].SetFace(1, digit);
      digit := draws[after];
      after := after + 1;
      vexes[y + 1].SetFace(3, digit);
      vexes[y + 2].SetFace(1, digit);
      digit := draws[after];
      after := after + 1;
      vexes[y + 2].SetFace(3, digit);
    }

    /** The block resting in slot p, if any: a search in block order. */
    method VexAtPosition(p: int) returns (r: Option<nat>)
      requires Coupled()
      ensures r == TileAt(positions, p)
    {
      var i := 0;
      while i < 9
        invariant 0 <= i <= 9
        invariant forall j :: 0 <= j < i ==> vexes[j].position != p
      {
        if vexes[i].GetPosition() == p {
          return Some(i);
        }
        i := i + 1;
      }
      return None;
    }

    /** All blocks sorted by slot: a held block first, then slots 0..8. */
    function VexesInDisplayOrder(): (shown: seq<VexBlock>)
      requires Wellformed()
      reads vexes
      ensures |shown| == 9
      ensures forall k :: 0 <= k < 9 ==> shown[k] == vexes[DisplayOrder(Positions())[k]]
    {
      var order := DisplayOrder(Positions());
      PermutationDistinct(order, 9);
      seq(9, k requires 0 <= k < 9 => vexes[order[k]])
    }

    /** The display order holds every block once and sorts them by slot. */
    lemma DisplayOrderSortsBlocks()
      requires Wellformed()
      ensures forall k, l :: 0 <= k < l < 9 ==>
        VexesInDisplayOrder()[k].position <= VexesInDisplayOrder()[l].position
      ensures forall i :: 0 <= i < 9 ==> vexes[i] in VexesInDisplayOrder()
    {
      var order := DisplayOrder(Positions());
      PermutationDistinct(order, 9);
      ReorderingKeepsAll(vexes, order, VexesInDisplayOrder());
    }

    /** A touch of slot `pressed`, as the interaction controller handles it. */
    method VexTargetInteract(pressed: nat)
      requires Valid() && pressed < 9
      modifies this, vexes
      ensures Valid()
      ensures State() == Touch(old(State()), pressed)
      ensures unchanged(Faces())
    {
      if moduleSolved {
        return;
      }
      var target := VexAtPosition(pressed);
      if target.None? {
        SetHeldDown(pressed);
      } else {
        TakeUp(pressed, target.value);
      }
    }

    /** A touch of the empty slot: the held block rests in the open slot and
        nothing is held any more. */
    method SetHeldDown(pressed: nat)
      requires Valid() && pressed < 9 && !moduleSolved && TileAt(positions, pressed).None?
      modifies this, vexes
      ensures Valid()
      ensures State() == Touch(old(State()), pressed)
      ensures unchanged(Faces())
    {
      ghost var before := State();
      TouchKeepsInv(before, pressed);
      Place(currentlyHeldVex.value, openPosition);
      currentlyHeldVex := None;
      openPosition := -1;
    }

    /** A touch of the slot block t rests in: a held block takes its place,
        or from idle that slot becomes the open one; then t is lifted. */
    method TakeUp(pressed: nat, t: nat)
      requires Valid() && pressed < 9 && !moduleSolved && TileAt(positions, pressed) == Some(t)
      modifies this, vexes
      ensures Valid()
      ensures State() == Touch(old(State()), pressed)
      ensures unchanged(Faces())
    {
      ghost var before := State();
      TouchKeepsInv(before, pressed);
      if currentlyHeldVex.Some? {
        Place(currentlyHeldVex.value, pressed);
      } else {
        openPosition := vexes[t].GetPosition();
      }
      Lift(t);
      currentlyHeldVex := Some(t);
    }

    /** Rests block t in slot p; the mirror follows. */
    method Place(t: nat, p: int)
      requires Coupled() && t < 9
      modifies this`positions, (vexes[t] as VexBlock)`position
      ensures Coupled() && positions == old(positions)[t := p]
    {
      vexes[t].SetPosition(p);
      positions := positions[t := p];
    }

    /** Lifts block t out of the grid; the mirror follows. */
    method Lift(t: nat)
      requires Coupled() && t < 9
      modifies this`positions, (vexes[t] as VexBlock)`position
      ensures Coupled() && positions == old(positions)[t := -1]
    {
      vexes[t].PickUp();
      positions := positions[t := -1];
    }

    /** The check button: strikes, passes or, once solved, does nothing. */
    method CheckButtonPress() returns (outcome: Outcome)
      requires Valid()
      modifies this`moduleSolved
      ensures Valid()
      ensures outcome == CheckOutcome(old(State()), Labels())
      ensures State() == AfterCheck(old(State()), Labels())
    {
      if moduleSolved {
        return NoOp;
      }
      ghost var before, labels := State(), Labels();
      outcome := Verdict();
      assert State() == before;
      assert Labels() == labels;
      assert outcome == CheckOutcome(before, labels);
      if outcome == Pass {
        moduleSolved := true;
        assert Labels() == labels;
        assert State() == before.(solved := true);
      }
    }

    /** What the check reports on an unsolved module: a strike when the first
        block in display order is held, else the first misfit cell, or a pass. */
    method Verdict() returns (outcome: Outcome)
      requires Valid() && !moduleSolved
      ensures outcome == CheckOutcome(State(), Labels())
    {
      assert Positions() == positions;
      var shownOrder := VexesInDisplayOrder();
      if shownOrder[0].GetPosition() == -1 {
        return StrikeHeld;
      }
      var bad := FirstMisfit(shownOrder);
      if bad.Some? {
        return Strike(bad.value);
      }
      return Pass;
    }

    /** The check's scan of the cells in display order: the first of cells
        0..7 whose block disagrees with the block below it or to its right.
        The bottom-right cell has no such neighbour and is not scanned. */
    method FirstMisfit(shownOrder: seq<VexBlock>) returns (bad: Option<nat>)
      requires Wellformed() && shownOrder == VexesInDisplayOrder()
      ensures bad == FirstBadCell(Labels(), DisplayOrder(Positions()), 0)
    {
      ghost var labels := Labels();
      ghost var order := DisplayOrder(Positions());
      var i := 0;
      while i < 8
        invariant 0 <= i <= 8
        invariant FirstBadCell(labels, order, 0) == FirstBadCell(labels, order, i)
      {
        var down: VexBlock? := if i < 6 then shownOrder[i + 3] else null;
        var right: VexBlock? := if i % 3 < 2 then shownOrder[i + 1] else null;
        if !shownOrder[i].IsPositionOkay(down, right) {
          assert !CellOkay(labels, order, i);
          return Some(i);
        }
        assert CellOkay(labels, order, i);
        i := i + 1;
      }
      return None;
    }

    /** Restores every block to its home slot by chasing cycles through the
        single open slot, then presses the check button. */
    method TwitchHandleForcedSolve() returns (outcome: Outcome, ghost touches: nat)
      requires Valid() && Generated() && currentlyHeldVex.None?
      modifies this, vexes
      ensures Valid()
      ensures old(moduleSolved) ==> outcome == NoOp && State() == old(State()) && touches == 0
      ensures !old(moduleSolved) ==> outcome == Pass && moduleSolved
      ensures forall i :: 0 <= i < 9 ==> !old(moduleSolved) ==> vexes[i].position == i
      ensures touches <= 2 * Misplaced(old(positions))
    {
      touches := 0;
      if moduleSolved {
        return NoOp, touches;
      }
      touches := RestoreAll();
      assert positions == HomeLayout();
      assert Labels() == HomeLabels(draws);
      ghost var home := State();
      assert home == Board(HomeLayout(), None, -1, false);
      HomeLayoutPasses(draws);
      outcome := CheckButtonPress();
      assert Labels() == HomeLabels(draws);
      assert outcome == CheckOutcome(home, HomeLabels(draws));
    }

    /** The forced solve's outer loop: cycles are chased until no block is
        away from home, at most two touches per block brought home. */
    method RestoreAll() returns (ghost touches: nat)
      requires Valid() && currentlyHeldVex.None? && !moduleSolved
      modifies this, vexes
      ensures Valid() && currentlyHeldVex.None? && !moduleSolved
      ensures unchanged(Faces())
      ensures forall i :: 0 <= i < 9 ==> positions[i] == i
      ensures touches <= 2 * Misplaced(old(positions))
    {
      touches := 0;
      ghost var start := Misplaced(positions);
      var i: int;
      var pos: int;
      while true
        invariant Valid() && currentlyHeldVex.None? && !moduleSolved
        invariant unchanged(Faces())
        invariant touches + 2 * Misplaced(positions) <= 2 * start
        decreases Misplaced(positions)
      {
        i, pos := FirstAwayBlock();
        if i == 9 {
          break;
        }
        ghost var steps := RestoreCycle(i, pos);
        touches := touches + steps;
      }
    }

    /** The forced solve's scan: the first block, in block order, away from its
        home slot, and the slot it rests in; 9 when every block is home. */
    method FirstAwayBlock() returns (i: int, pos: int)
      requires Coupled()
      ensures 0 <= i <= 9
      ensures forall j :: 0 <= j < i ==> positions[j] == j
      ensures i < 9 ==> pos == positions[i] && pos != i
    {
      pos := 0;
      i := 0;
      while i < 9
        invariant 0 <= i <= 9
        invariant forall j :: 0 <= j < i ==> vexes[j].position == j
      {
        pos := vexes[i].GetPosition();
        if pos != i {
          return;
        }
        i := i + 1;
      }
    }

    /** One cycle of the forced solve: lift block t from slot `pos`, send each
        held block to its home slot (lifting the one found there) until the
        held block's home is `pos`, then set it down there. Every touch after
        the first brings one more block home. */
    method RestoreCycle(t: nat, pos: int) returns (ghost steps: nat)
      requires Valid() && currentlyHeldVex.None? && !moduleSolved
      requires t < 9 && positions[t] == pos && pos != t
      modifies this, vexes
      ensures Valid() && currentlyHeldVex.None? && !moduleSolved
      ensures unchanged(Faces())
      ensures Misplaced(positions) < old(Misplaced(positions))
      ensures steps + 2 * Misplaced(positions) <= 2 * old(Misplaced(positions))
      ensures positions[t] == t
      ensures StaysHome(old(positions), positions)
    {
      ghost var round, start := Misplaced(positions), positions;
      LiftAwayBlock(State(), t);
      VexTargetInteract(pos as nat);
      steps := 1;

      while vexes[currentlyHeldVex.value].idealPosition != pos
        invariant Valid() && currentlyHeldVex.Some? && openPosition == pos && !moduleSolved
        invariant unchanged(Faces())
        invariant steps + 2 * Misplaced(positions) <= 2 * round + 1
        invariant StaysHome(start, positions)
        invariant currentlyHeldVex != Some(t) ==> positions[t] == t
        decreases Misplaced(positions)
      {
        ghost var here := positions;
        SendHeldHome(State());
        VexTargetInteract(vexes[currentlyHeldVex.value].idealPosition as nat);
        steps := steps + 1;
        assert StaysHome(here, positions);
      }
      ghost var here := positions;
      SetDownAtHome(State());
      VexTargetInteract(pos as nat);
      steps := steps + 1;
      assert StaysHome(here, positions);
    }
  }

  /** Picking items by a sequence of indices that covers every index keeps
      every item. */
  lemma ReorderingKeepsAll<T>(items: seq<T>, order: seq<nat>, picked: seq<T>)
    requires |picked| == |order|
    requires forall k :: 0 <= k < |order| ==> order[k] < |items| && picked[k] == items[order[k]]
    requires forall t :: 0 <= t < |items| ==> t in order
    ensures forall t :: 0 <= t < |items| ==> items[t] in picked
  {
    forall t | 0 <= t < |items| ensures items[t] in picked {
      assert t in order;
      var k :| 0 <= k < |order| && order[k] == t;
      assert picked[k] == items[t];
    }
  }
}
