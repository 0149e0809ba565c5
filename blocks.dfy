/** One puzzle piece (a "vex block"): four edge labels in DLUR order, the slot it
    belongs in, and the slot it currently rests in (-1 while it is held). */
module Blocks {

  /** The four sides of a block, in the order its label array stores them. */
  datatype Face = Down | Left | Up | Right {
    function Index(): (i: nat)
      ensures i < 4
    {
      match this
      case Down => 0
      case Left => 1
      case Up => 2
      case Right => 3
    }

    /** The side of a neighbour that touches this side. */
    function Opposite(): (g: Face) {
      match this
      case Down => Up
      case Up => Down
      case Left => Right
      case Right => Left
    }
  }

  /** Labels `a` and `b` agree where `b` lies beyond side `f` of `a`. */
  predicate Meets(a: seq<int>, f: Face, b: seq<int>)
    requires |a| == 4 && |b| == 4
  {
    a[f.Index()] == b[f.Opposite().Index()]
  }

  class VexBlock {
    const digits: array<int>
    var idealPosition: int
    var position: int

    /** A fresh block: four zero labels, home and position 0. */
    constructor ()
      ensures fresh(digits) && digits[..] == [0, 0, 0, 0]
      ensures idealPosition == 0 && position == 0
    {
      digits := new int[4](_ => 0);
      idealPosition := 0;
      position := 0;
    }

    /** Writes one label; the other three stay as they were. */
    method SetFace(face: int, digit: int)
      requires 0 <= face < digits.Length
      modifies digits
      ensures digits[face] == digit
      ensures forall k :: 0 <= k < digits.Length && k != face ==> digits[k] == old(digits[k])
    {
      digits[face] := digit;
    }

    /** Sides f and g carry the labels `want` gives them. */
    ghost predicate Carries(f: nat, g: nat, want: seq<int>)
      requires f < 4 && g < 4 && |want| == 4 && digits.Length == 4
      reads digits
    {
      digits[f] == want[f] && digits[g] == want[g]
    }

    function GetPosition(): (p: int)
      reads this
    {
      position
    }

    /** Rests the block in slot `newPosition`; its labels and home do not change. */
    method SetPosition(newPosition: int)
      modifies this`position
      ensures GetPosition() == newPosition
      ensures unchanged(digits)
    {
      position := newPosition;
    }

    /** Lifts the block out of the grid, from whatever slot it was in. */
    method PickUp()
      modifies this`position
      ensures GetPosition() == -1
      ensures unchanged(digits)
    {
      position := -1;
    }

    /** Whether this block agrees with the block below it and the block to its
        right; a missing neighbour imposes nothing. */
    function IsPositionOkay(down: VexBlock?, right: VexBlock?): (ok: bool)
      requires digits.Length == 4
      requires down != null ==> down.digits.Length == 4
      requires right != null ==> right.digits.Length == 4
      reads digits, (if down != null then {down.digits} else {}), (if right != null then {right.digits} else {})
      ensures ok <==>
                (down == null || Meets(digits[..], Down, down.digits[..])) &&
                (right == null || Meets(digits[..], Right, right.digits[..]))
      ensures down == null && right == null ==> ok
    {
      if down != null && down.digits[2] != digits[0] then false
      else if right != null && right.digits[1] != digits[3] then false
      else true
    }
  }
}
