/** The measure behind the forced solve: how many blocks are away from home
    (a held block counts as away), and how each kind of touch the solver makes
    changes it. */
module Restore {
  import opened Wrappers
  import opened Grid

  /** The number of blocks t with pos[t] != t. */
  function Misplaced(pos: seq<int>): (n: nat)
    ensures n <= |pos|
    ensures n == 0 <==> forall t :: 0 <= t < |pos| ==> pos[t] == t
  {
    if pos == [] then 0
    else Misplaced(pos[..|pos| - 1]) + (if pos[|pos| - 1] != |pos| - 1 then 1 else 0)
  }

  /** Moving one block changes the count only by that block's own status. */
  lemma {:induction false} MisplacedUpdate(pos: seq<int>, k: nat, v: int)
    requires k < |pos|
    ensures Misplaced(pos[k := v]) ==
      Misplaced(pos) - (if pos[k] != k then 1 else 0) + (if v != k then 1 else 0)
  {
    var n := |pos| - 1;
    if k < n {
      assert pos[k := v][..n] == pos[..n][k := v];
      MisplacedUpdate(pos[..n], k, v);
    } else {
      assert pos[k := v][..n] == pos[..n];
    }
  }

  /** Every block home in `p` is still home in `q`. */
  ghost predicate StaysHome(p: seq<int>, q: seq<int>)
    requires |p| == 9 && |q| == 9
  {
    forall j :: 0 <= j < 9 && p[j] == j ==> q[j] == j
  }

  /** Lifting a block that is away from home keeps the count. */
  lemma LiftAwayBlock(b: Board, t: nat)
    requires Inv(b) && !b.solved && b.held.None? && t < 9 && b.pos[t] != t
    ensures 0 <= b.pos[t] < 9
    ensures Touch(b, b.pos[t] as nat).held == Some(t) && Touch(b, b.pos[t] as nat).open == b.pos[t]
    ensures Misplaced(Touch(b, b.pos[t] as nat).pos) == Misplaced(b.pos)
    ensures StaysHome(b.pos, Touch(b, b.pos[t] as nat).pos)
  {
    assert b.pos[t] != -1;
    TileAtDistinct(b.pos, t);
    MisplacedUpdate(b.pos, t, -1);
  }

  /** Touching the held block's home slot, when that is not the open slot,
      sends it home and lifts the block that sat there: one fewer away. */
  lemma SendHeldHome(b: Board)
    requires Inv(b) && !b.solved && b.held.Some? && b.held.value != b.open
    ensures Touch(b, b.held.value).held.Some? && Touch(b, b.held.value).open == b.open
    ensures Touch(b, b.held.value).pos[b.held.value] == b.held.value
    ensures Misplaced(Touch(b, b.held.value).pos) == Misplaced(b.pos) - 1
    ensures StaysHome(b.pos, Touch(b, b.held.value).pos)
  {
    var h := b.held.value;
    assert h in b.pos;
    var t := TileAt(b.pos, h).value;
    assert t != h;
    MisplacedUpdate(b.pos, h, h);
    MisplacedUpdate(b.pos[h := h], t, -1);
  }

  /** Setting the held block down in the open slot, when that is its home,
      leaves one fewer away and nothing held. */
  lemma SetDownAtHome(b: Board)
    requires Inv(b) && !b.solved && b.held == Some(b.open)
    ensures Touch(b, b.open as nat).held.None?
    ensures Touch(b, b.open as nat).pos[b.open] == b.open
    ensures Misplaced(Touch(b, b.open as nat).pos) == Misplaced(b.pos) - 1
    ensures StaysHome(b.pos, Touch(b, b.open as nat).pos)
  {
    MisplacedUpdate(b.pos, b.held.value, b.open);
  }
}
