/** The solution validator: blocks are put in display order (sorted by slot),
    then cells 0..7 are checked against their down and right neighbours. */
module Validation {
  import opened Wrappers
  import opened Blocks
  import opened Grid

  /** Nine label quadruples, one per block, in DLUR order. */
  predicate WellFormedLabels(labels: seq<seq<int>>) {
    |labels| == 9 && forall t :: 0 <= t < 9 ==> |labels[t]| == 4
  }

  function Range(n: nat): (r: seq<nat>)
    ensures |r| == n && forall i :: 0 <= i < n ==> r[i] == i
  {
    seq(n, i requires 0 <= i < n => i)
  }

  predicate IndicesOf(pos: seq<int>, order: seq<nat>) {
    forall i :: 0 <= i < |order| ==> order[i] < |pos|
  }

  predicate SortedBy(pos: seq<int>, order: seq<nat>)
    requires IndicesOf(pos, order)
  {
    forall i, j :: 0 <= i < j < |order| ==> pos[order[i]] <= pos[order[j]]
  }

  /** Inserts block `x` into a list of blocks already sorted by slot. */
  function Insert(pos: seq<int>, x: nat, sorted: seq<nat>): (r: seq<nat>)
    requires x < |pos| && IndicesOf(pos, sorted) && SortedBy(pos, sorted)
    ensures |r| == |sorted| + 1 && IndicesOf(pos, r) && SortedBy(pos, r)
    ensures multiset(r) == multiset(sorted) + multiset{x}
  {
    if sorted == [] || pos[x] <= pos[sorted[0]] then [x] + sorted
    else
      var rest := Insert(pos, x, sorted[1..]);
      assert sorted == [sorted[0]] + sorted[1..];
      assert forall k :: 0 <= k < |rest| ==> pos[sorted[0]] <= pos[rest[k]] by {
        forall k | 0 <= k < |rest| ensures pos[sorted[0]] <= pos[rest[k]] {
          assert rest[k] in multiset(rest);
          if rest[k] != x {
            assert rest[k] in multiset(sorted[1..]);
          }
        }
      }
      [sorted[0]] + rest
  }

  /** Sorts a list of blocks by slot. */
  function SortBySlot(pos: seq<int>, blocks: seq<nat>): (r: seq<nat>)
    requires IndicesOf(pos, blocks)
    ensures |r| == |blocks| && IndicesOf(pos, r) && SortedBy(pos, r)
    ensures multiset(r) == multiset(blocks)
  {
    if blocks == [] then []
    else
      assert blocks == blocks[..|blocks| - 1] + [blocks[|blocks| - 1]];
      Insert(pos, blocks[|blocks| - 1], SortBySlot(pos, blocks[..|blocks| - 1]))
  }

  /** All blocks in display order: a permutation of the blocks, sorted by slot,
      so a held block (slot -1) comes first. */
  function DisplayOrder(pos: seq<int>): (order: seq<nat>)
    ensures |order| == |pos| && IndicesOf(pos, order) && SortedBy(pos, order)
    ensures multiset(order) == multiset(Range(|pos|))
  {
    SortBySlot(pos, Range(|pos|))
  }

  /** A list of nine block indices. */
  predicate NineBlocks(order: seq<nat>) {
    |order| == 9 && forall i :: 0 <= i < 9 ==> order[i] < 9
  }

  /** The test the validator applies to the block shown in cell i: below and to
      the right of it, where those cells exist, the touching labels agree. */
  predicate CellOkay(labels: seq<seq<int>>, order: seq<nat>, i: nat): (ok: bool)
    requires WellFormedLabels(labels) && NineBlocks(order) && i < 9
    ensures i == 8 ==> ok
  {
    && (i < 6 ==> Meets(labels[order[i]], Down, labels[order[i + 3]]))
    && (i % 3 < 2 ==> Meets(labels[order[i]], Right, labels[order[i + 1]]))
  }

  /** The first cell from i up to 7 whose test fails. */
  function FirstBadCell(labels: seq<seq<int>>, order: seq<nat>, i: nat): (r: Option<nat>)
    requires WellFormedLabels(labels) && NineBlocks(order) && i <= 8
    ensures r.Some? ==> i <= r.value < 8 && !CellOkay(labels, order, r.value)
    ensures r.Some? ==> forall j :: i <= j < r.value ==> CellOkay(labels, order, j)
    ensures r.None? <==> forall j :: i <= j < 8 ==> CellOkay(labels, order, j)
    decreases 8 - i
  {
    if i == 8 then None
    else if !CellOkay(labels, order, i) then Some(i)
    else FirstBadCell(labels, order, i + 1)
  }

  /** What pressing the check button reports to the host. */
  datatype Outcome = NoOp | StrikeHeld | Strike(cell: nat) | Pass

  /** The check: nothing once solved; a strike when the first block in display
      order is held; else a strike naming the first failing cell, or a pass. */
  function CheckOutcome(b: Board, labels: seq<seq<int>>): (o: Outcome)
    requires |b.pos| == 9 && WellFormedLabels(labels)
    ensures b.solved <==> o == NoOp
  {
    if b.solved then NoOp
    else
      var order := DisplayOrder(b.pos);
      if b.pos[order[0]] == -1 then StrikeHeld
      else match FirstBadCell(labels, order, 0)
        case Some(c) => Strike(c)
        case None => Pass
  }

  /** Where the check leaves the solved flag: set by a pass, never cleared. */
  function AfterCheck(b: Board, labels: seq<seq<int>>): (r: Board)
    requires |b.pos| == 9 && WellFormedLabels(labels)
    ensures r.pos == b.pos && r.held == b.held && r.open == b.open
    ensures r.solved <==> b.solved || CheckOutcome(b, labels) == Pass
  {
    if CheckOutcome(b, labels) == Pass then b.(solved := true) else b
  }

  /** The check keeps the board invariant: it moves no block. */
  lemma CheckKeepsInv(b: Board, labels: seq<seq<int>>)
    requires Inv(b) && WellFormedLabels(labels)
    ensures Inv(AfterCheck(b, labels))
  {
  }

  // ----- The display order of a board that satisfies the invariant -----

  /** Occurrences counted by a multiset: a distinct list holds each value once. */
  lemma {:induction false} DistinctCount(s: seq<nat>, x: nat)
    requires forall i, j :: 0 <= i < j < |s| ==> s[i] != s[j]
    ensures multiset(s)[x] <= 1
  {
    if s != [] {
      assert s == [s[0]] + s[1..];
      DistinctCount(s[1..], x);
      if s[0] == x {
        assert x !in s[1..];
      }
    }
  }

  /** A permutation of 0..n-1 lists each block once. */
  lemma PermutationDistinct(order: seq<nat>, n: nat)
    requires multiset(order) == multiset(Range(n))
    ensures forall i, j :: 0 <= i < j < |order| ==> order[i] != order[j]
    ensures forall i :: 0 <= i < |order| ==> order[i] < n
    ensures forall t :: 0 <= t < n ==> t in order
  {
    var r := Range(n);
    forall i, j | 0 <= i < j < |order| ensures order[i] != order[j] {
      if order[i] == order[j] {
        var x := order[i];
        assert order == order[..j] + [order[j]] + order[j + 1..];
        assert x in order[..j];
        assert multiset(order)[x] >= 2;
        DistinctCount(r, x);
        assert false;
      }
    }
    forall i | 0 <= i < |order| ensures order[i] < n {
      assert order[i] in multiset(r);
    }
    forall t | 0 <= t < n ensures t in order {
      assert r[t] == t;
      assert t in multiset(order);
    }
  }

  /** While a block is held it comes first in display order; otherwise the
      first block is resting. */
  lemma HeldSortsFirst(b: Board)
    requires Inv(b)
    ensures b.pos[DisplayOrder(b.pos)[0]] == -1 <==> b.held.Some?
  {
    var order := DisplayOrder(b.pos);
    PermutationDistinct(order, 9);
    if b.held.Some? {
      var h := b.held.value;
      assert h in order;
    }
  }

  /** With nothing held, the k-th block in display order rests in slot k. */
  lemma IdleOrderIsGrid(b: Board)
    requires Inv(b) && b.held.None?
    ensures forall k :: 0 <= k < 9 ==> b.pos[DisplayOrder(b.pos)[k]] == k
  {
    var order := DisplayOrder(b.pos);
    PermutationDistinct(order, 9);
    var v := seq(9, k requires 0 <= k < 9 => b.pos[order[k]]);
    assert forall k :: 0 <= k < 9 ==> 0 <= v[k] < 9 by {
      forall k | 0 <= k < 9 ensures 0 <= v[k] {
        assert b.pos[order[k]] != -1;
      }
    }
    assert forall k :: 0 <= k < 8 ==> v[k] < v[k + 1] by {
      forall k | 0 <= k < 8 ensures v[k] < v[k + 1] {
        assert order[k] != order[k + 1];
      }
    }
    var k := 0;
    while k < 9
      invariant 0 <= k <= 9
      invariant forall j :: 0 <= j < k ==> v[j] >= j
    {
      if k > 0 {
        assert v[k - 1] < v[k];
      }
      k := k + 1;
    }
    k := 8;
    while k > 0
      invariant 0 <= k <= 8
      invariant forall j :: k <= j < 9 ==> v[j] <= j
    {
      assert v[k - 1] < v[k];
      k := k - 1;
    }
    forall k | 0 <= k < 9 ensures b.pos[order[k]] == k {
      assert v[k] == b.pos[order[k]];
    }
  }

  // ----- What the check decides -----

  /** Slot q lies directly to the right of slot p. */
  predicate RightNeighbour(p: int, q: int) {
    0 <= p < 9 && p % 3 < 2 && q == p + 1
  }

  /** Slot q lies directly below slot p. */
  predicate LowerNeighbour(p: int, q: int) {
    0 <= p < 6 && q == p + 3
  }

  /** The block resting in slot s agrees with every block resting next to it
      below and to its right. */
  ghost predicate SlotOkay(labels: seq<seq<int>>, pos: seq<int>, s: int)
    requires WellFormedLabels(labels) && |pos| == 9
  {
    forall t, u :: 0 <= t < 9 && 0 <= u < 9 && pos[t] == s ==>
      && (LowerNeighbour(s, pos[u]) ==> Meets(labels[t], Down, labels[u]))
      && (RightNeighbour(s, pos[u]) ==> Meets(labels[t], Right, labels[u]))
  }

  /** All twelve internal adjacencies of the arrangement match. */
  ghost predicate EdgesMatch(labels: seq<seq<int>>, pos: seq<int>)
    requires WellFormedLabels(labels) && |pos| == 9
  {
    forall s :: 0 <= s < 9 ==> SlotOkay(labels, pos, s)
  }

  /** For an idle board, the validator's test of cell s is the test of slot s. */
  lemma CellIsSlot(b: Board, labels: seq<seq<int>>, s: nat)
    requires Inv(b) && b.held.None? && WellFormedLabels(labels) && s < 9
    ensures CellOkay(labels, DisplayOrder(b.pos), s) <==> SlotOkay(labels, b.pos, s)
  {
    var order := DisplayOrder(b.pos);
    IdleOrderIsGrid(b);
    assert forall t :: 0 <= t < 9 && b.pos[t] == b.pos[order[t]] ==> t == order[t];
    if CellOkay(labels, order, s) {
      forall t, u | 0 <= t < 9 && 0 <= u < 9 && b.pos[t] == s
        ensures LowerNeighbour(s, b.pos[u]) ==> Meets(labels[t], Down, labels[u])
        ensures RightNeighbour(s, b.pos[u]) ==> Meets(labels[t], Right, labels[u])
      {
        assert b.pos[order[s]] == s;
        assert t == order[s];
        if LowerNeighbour(s, b.pos[u]) {
          assert b.pos[order[s + 3]] == s + 3;
          assert u == order[s + 3];
        }
        if RightNeighbour(s, b.pos[u]) {
          assert b.pos[order[s + 1]] == s + 1;
          assert u == order[s + 1];
        }
      }
    } else {
      var t := order[s];
      assert b.pos[t] == s;
      if s < 6 && !Meets(labels[t], Down, labels[order[s + 3]]) {
        assert b.pos[order[s + 3]] == s + 3;
      } else {
        assert b.pos[order[s + 1]] == s + 1;
      }
    }
  }

  /** Checking while a block is held strikes and does not solve. */
  lemma CheckWhileHolding(b: Board, labels: seq<seq<int>>)
    requires Inv(b) && !b.solved && b.held.Some? && WellFormedLabels(labels)
    ensures CheckOutcome(b, labels) == StrikeHeld
    ensures !AfterCheck(b, labels).solved
  {
    HeldSortsFirst(b);
  }

  /** With nothing held, the check passes exactly when all twelve internal
      adjacencies match; cell 8 needs no test of its own. */
  lemma CheckPassIff(b: Board, labels: seq<seq<int>>)
    requires Inv(b) && !b.solved && b.held.None? && WellFormedLabels(labels)
    ensures CheckOutcome(b, labels) == Pass <==> EdgesMatch(labels, b.pos)
  {
    HeldSortsFirst(b);
    var order := DisplayOrder(b.pos);
    forall s | 0 <= s < 9 ensures CellOkay(labels, order, s) <==> SlotOkay(labels, b.pos, s) {
      CellIsSlot(b, labels, s);
    }
    assert CellOkay(labels, order, 8);
  }

  /** A failed check names the first slot, in row-major order, whose block
      disagrees with its lower or right neighbour. */
  lemma CheckReportsFirstBadSlot(b: Board, labels: seq<seq<int>>)
    requires Inv(b) && !b.solved && b.held.None? && WellFormedLabels(labels)
    requires CheckOutcome(b, labels).Strike?
    ensures CheckOutcome(b, labels).cell < 8
    ensures !SlotOkay(labels, b.pos, CheckOutcome(b, labels).cell)
    ensures forall s :: 0 <= s < CheckOutcome(b, labels).cell ==> SlotOkay(labels, b.pos, s)
  {
    HeldSortsFirst(b);
    var c := CheckOutcome(b, labels).cell;
    CellIsSlot(b, labels, c);
    forall s | 0 <= s < c ensures SlotOkay(labels, b.pos, s) {
      CellIsSlot(b, labels, s);
    }
  }

  /** Nine blocks with all labels zero pass in any arrangement. */
  lemma AllZeroLabelsPass(b: Board)
    requires Inv(b) && !b.solved && b.held.None?
    ensures CheckOutcome(b, seq(9, _ => [0, 0, 0, 0])) == Pass
  {
    var labels := seq(9, _ => [0, 0, 0, 0]);
    CheckPassIff(b, labels);
  }

  /** When the block in the top-left slot disagrees with the block to its right,
      the check strikes and names the top-left cell. */
  lemma TopLeftMismatchReported(b: Board, labels: seq<seq<int>>)
    requires Inv(b) && !b.solved && b.held.None? && WellFormedLabels(labels)
    requires labels[TileAt(b.pos, 0).value][Right.Index()] != labels[TileAt(b.pos, 1).value][Left.Index()]
    ensures CheckOutcome(b, labels) == Strike(0)
  {
    var order := DisplayOrder(b.pos);
    HeldSortsFirst(b);
    IdleOrderIsGrid(b);
    assert b.pos[order[0]] == 0 && b.pos[order[1]] == 1;
    TileAtDistinct(b.pos, order[0]);
    TileAtDistinct(b.pos, order[1]);
    assert !CellOkay(labels, order, 0);
  }
}
