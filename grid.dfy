/** The board as a value: where each of the nine blocks rests, which block is
    held, which slot it was lifted from, and whether the module is solved; the
    board invariant; and the touch transition of the interaction controller. */
module Grid {
  import opened Wrappers

  /** Slots are numbered 0..8 row-major; `pos[t]` is block t's slot, -1 while held. */
  datatype Board = Board(pos: seq<int>, held: Option<nat>, open: int, solved: bool)

  predicate Distinct(pos: seq<int>) {
    forall i, j :: 0 <= i < j < |pos| ==> pos[i] != pos[j]
  }

  /** At most one block is lifted and it is the held one; resting blocks sit on
      distinct slots; nothing held leaves no slot empty, while holding the only
      empty slot is the open one. */
  ghost predicate Inv(b: Board) {
    && |b.pos| == 9
    && (forall t :: 0 <= t < 9 ==> -1 <= b.pos[t] < 9)
    && Distinct(b.pos)
    && match b.held
       case None =>
         && b.open == -1
         && -1 !in b.pos
         && (forall s :: 0 <= s < 9 ==> s in b.pos)
       case Some(h) =>
         && h < 9
         && b.pos[h] == -1
         && 0 <= b.open < 9
         && b.open !in b.pos
         && (forall s :: 0 <= s < 9 && s != b.open ==> s in b.pos)
  }

  /** The block resting in slot `p`, found by a search in block order. */
  function TileAt(pos: seq<int>, p: int): (r: Option<nat>)
    ensures r.Some? ==> r.value < |pos| && pos[r.value] == p
    ensures r.Some? ==> forall j :: 0 <= j < r.value ==> pos[j] != p
    ensures r.None? <==> p !in pos
  {
    if pos == [] then None
    else if pos[0] == p then Some(0)
    else match TileAt(pos[1..], p)
      case None => None
      case Some(i) => Some(i + 1)
  }

  /** With distinct positions, the block found at a slot is the one resting there. */
  lemma TileAtDistinct(pos: seq<int>, t: nat)
    requires Distinct(pos) && t < |pos|
    ensures TileAt(pos, pos[t]) == Some(t)
  {
  }

  /** The touch of slot `pressed` (0..8): no effect once solved; the empty slot
      receives the held block at the open slot; an occupied slot, while holding,
      takes the held block and gives up its own, the open slot staying put; from
      idle, the touched block is lifted and its slot becomes the open one. */
  function Touch(b: Board, pressed: nat): (r: Board)
    requires Inv(b) && pressed < 9
    ensures r.solved == b.solved
    ensures b.solved ==> r == b
    ensures |r.pos| == 9
    ensures forall t :: 0 <= t < 9 && b.pos[t] != pressed && b.held != Some(t) ==> r.pos[t] == b.pos[t]
  {
    if b.solved then b
    else match TileAt(b.pos, pressed)
      case None =>
        Board(b.pos[b.held.value := b.open], None, -1, b.solved)
      case Some(t) =>
        if b.held.Some? then
          Board(b.pos[b.held.value := pressed][t := -1], Some(t), b.open, b.solved)
        else
          Board(b.pos[t := -1], Some(t), b.pos[t], b.solved)
  }

  /** Every touch keeps the board invariant; a solved board ignores touches. */
  lemma TouchKeepsInv(b: Board, pressed: nat)
    requires Inv(b) && pressed < 9
    ensures Inv(Touch(b, pressed))
    ensures Touch(b, pressed).solved == b.solved
    ensures b.solved ==> Touch(b, pressed) == b
  {
    if !b.solved {
      var r := Touch(b, pressed);
      match TileAt(b.pos, pressed)
      case None =>
        var h := b.held.value;
        forall s | 0 <= s < 9 ensures s in r.pos {
          if s == b.open {
            assert r.pos[h] == s;
          } else {
            var i := TileAt(b.pos, s).value;
            assert r.pos[i] == s;
          }
        }
      case Some(t) =>
        if b.held.Some? {
          var h := b.held.value;
          forall s | 0 <= s < 9 && s != b.open ensures s in r.pos {
            if s == pressed {
              assert r.pos[h] == s;
            } else {
              var i := TileAt(b.pos, s).value;
              assert r.pos[i] == s;
            }
          }
        } else {
          forall s | 0 <= s < 9 && s != pressed ensures s in r.pos {
            var i := TileAt(b.pos, s).value;
            assert r.pos[i] == s;
          }
        }
    }
  }

  /** Slots other than the ones an update touched keep their occupants. */
  ghost predicate SameElsewhere(p: seq<int>, q: seq<int>, x: int, y: int) {
    forall s :: 0 <= s < 9 && s != x && s != y ==> TileAt(q, s) == TileAt(p, s)
  }

  /** From idle, touching a slot lifts its block and makes that slot the open one. */
  lemma PickUpFromIdle(b: Board, pressed: nat)
    requires Inv(b) && pressed < 9 && !b.solved && b.held.None?
    ensures Touch(b, pressed).held == TileAt(b.pos, pressed)
    ensures Touch(b, pressed).held.Some? && Touch(b, pressed).open == pressed
    ensures TileAt(Touch(b, pressed).pos, pressed) == None
    ensures SameElsewhere(b.pos, Touch(b, pressed).pos, pressed, pressed)
  {
    var r := Touch(b, pressed);
    TouchKeepsInv(b, pressed);
    forall s | 0 <= s < 9 && s != pressed ensures TileAt(r.pos, s) == TileAt(b.pos, s) {
      var i := TileAt(b.pos, s).value;
      TileAtDistinct(r.pos, i);
    }
  }

  /** While holding, touching an occupied slot puts the held block there and
      lifts the block that was there; the open slot does not move. */
  lemma SwapWhileHolding(b: Board, pressed: nat)
    requires Inv(b) && pressed < 9 && !b.solved && b.held.Some? && pressed != b.open
    ensures Touch(b, pressed).held == TileAt(b.pos, pressed)
    ensures Touch(b, pressed).held.Some? && Touch(b, pressed).open == b.open
    ensures TileAt(Touch(b, pressed).pos, pressed) == b.held
    ensures SameElsewhere(b.pos, Touch(b, pressed).pos, pressed, pressed)
  {
    var r := Touch(b, pressed);
    TouchKeepsInv(b, pressed);
    TileAtDistinct(r.pos, b.held.value);
    forall s | 0 <= s < 9 && s != pressed ensures TileAt(r.pos, s) == TileAt(b.pos, s) {
      if s != b.open {
        var i := TileAt(b.pos, s).value;
        TileAtDistinct(r.pos, i);
      }
    }
  }

  /** While holding, touching the empty slot sets the held block down in the
      open slot and returns to idle. */
  lemma PutDown(b: Board)
    requires Inv(b) && !b.solved && b.held.Some?
    ensures Touch(b, b.open as nat).held == None && Touch(b, b.open as nat).open == -1
    ensures TileAt(Touch(b, b.open as nat).pos, b.open) == b.held
    ensures SameElsewhere(b.pos, Touch(b, b.open as nat).pos, b.open, b.open)
  {
    var r := Touch(b, b.open as nat);
    TouchKeepsInv(b, b.open as nat);
    TileAtDistinct(r.pos, b.held.value);
    forall s | 0 <= s < 9 && s != b.open ensures TileAt(r.pos, s) == TileAt(b.pos, s) {
      var i := TileAt(b.pos, s).value;
      TileAtDistinct(r.pos, i);
    }
  }

  /** From idle, touching x, y, x with x != y exchanges the blocks of x and y,
      leaves every other slot as it was and ends idle. */
  lemma ExchangeByThreeTouches(b: Board, x: nat, y: nat)
    requires Inv(b) && !b.solved && b.held.None? && x < 9 && y < 9 && x != y
    ensures Inv(Touch(b, x)) && Inv(Touch(Touch(b, x), y))
    ensures Inv(Touch(Touch(Touch(b, x), y), x))
    ensures Touch(Touch(Touch(b, x), y), x).held.None?
    ensures !Touch(Touch(Touch(b, x), y), x).solved
    ensures TileAt(Touch(Touch(Touch(b, x), y), x).pos, x) == TileAt(b.pos, y)
    ensures TileAt(Touch(Touch(Touch(b, x), y), x).pos, y) == TileAt(b.pos, x)
    ensures SameElsewhere(b.pos, Touch(Touch(Touch(b, x), y), x).pos, x, y)
  {
    var b1 := Touch(b, x);
    PickUpFromIdle(b, x);
    TouchKeepsInv(b, x);
    var b2 := Touch(b1, y);
    SwapWhileHolding(b1, y);
    TouchKeepsInv(b1, y);
    assert b2.open == x;
    PutDown(b2);
    TouchKeepsInv(b2, x);
  }
}
