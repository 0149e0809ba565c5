/** Puzzle generation: 24 label draws fill a solved 3x3 layout whose internal
    edges share one draw each; a permutation of the slots then scrambles it. */
module Generation {
  import opened Wrappers
  import opened Blocks
  import opened Grid
  import opened Validation

  /** The 24 draws, each a label in [0, 8). */
  predicate ValidDraws(draws: seq<int>) {
    |draws| == 24 && forall k :: 0 <= k < 24 ==> 0 <= draws[k] < 8
  }

  /** The labels generation writes on the block whose home is slot j = 3r + c.
      Column c's vertical draws are draws[4c .. 4c+3], top to bottom; row r's
      horizontal draws are draws[12 + 4r .. 12 + 4r + 3], left to right. */
  function HomeLabels(draws: seq<int>): (labels: seq<seq<int>>)
    requires |draws| == 24
    ensures WellFormedLabels(labels)
  {
    seq(9, j requires 0 <= j < 9 =>
      var r, c := j / 3, j % 3;
      [draws[4 * c + r + 1], draws[12 + 4 * r + c], draws[4 * c + r], draws[12 + 4 * r + c + 1]])
  }

  /** Column x's pass of the first generation loop consumes draws 4x .. 4x+3:
      the top edge of its top block, then each vertical edge shared by two
      blocks of the column (the upper block's down label equals the lower
      block's up label), then the bottom edge of its bottom block. */
  lemma ColumnDraws(draws: seq<int>, x: int)
    requires |draws| == 24 && 0 <= x < 3
    ensures HomeLabels(draws)[x][Up.Index()] == draws[4 * x]
    ensures HomeLabels(draws)[x][Down.Index()] == draws[4 * x + 1]
    ensures HomeLabels(draws)[x + 3][Up.Index()] == draws[4 * x + 1]
    ensures HomeLabels(draws)[x + 3][Down.Index()] == draws[4 * x + 2]
    ensures HomeLabels(draws)[x + 6][Up.Index()] == draws[4 * x + 2]
    ensures HomeLabels(draws)[x + 6][Down.Index()] == draws[4 * x + 3]
  {
    assert x / 3 == 0 && x % 3 == x;
    assert (x + 3) / 3 == 1 && (x + 3) % 3 == x;
    assert (x + 6) / 3 == 2 && (x + 6) % 3 == x;
  }

  /** Row r's pass of the second generation loop consumes draws 12+4r .. 12+4r+3,
      left to right, each shared edge giving the left block's right label and
      the right block's left label. */
  lemma RowDraws(draws: seq<int>, r: int)
    requires |draws| == 24 && 0 <= r < 3
    ensures HomeLabels(draws)[3 * r][Left.Index()] == draws[12 + 4 * r]
    ensures HomeLabels(draws)[3 * r][Right.Index()] == draws[12 + 4 * r + 1]
    ensures HomeLabels(draws)[3 * r + 1][Left.Index()] == draws[12 + 4 * r + 1]
    ensures HomeLabels(draws)[3 * r + 1][Right.Index()] == draws[12 + 4 * r + 2]
    ensures HomeLabels(draws)[3 * r + 2][Left.Index()] == draws[12 + 4 * r + 2]
    ensures HomeLabels(draws)[3 * r + 2][Right.Index()] == draws[12 + 4 * r + 3]
  {
    assert (3 * r) / 3 == r && (3 * r) % 3 == 0;
    assert (3 * r + 1) / 3 == r && (3 * r + 1) % 3 == 1;
    assert (3 * r + 2) / 3 == r && (3 * r + 2) % 3 == 2;
  }

  /** Block t rests in its home slot t. */
  function HomeLayout(): (pos: seq<int>)
    ensures |pos| == 9 && forall t :: 0 <= t < 9 ==> pos[t] == t
  {
    Range(9)
  }

  /** The home layout of generated labels is a solution: every one of its
      twelve internal adjacencies matches, and every label lies in [0, 8). */
  lemma HomeLayoutMatches(draws: seq<int>)
    requires |draws| == 24
    ensures EdgesMatch(HomeLabels(draws), HomeLayout())
    ensures ValidDraws(draws) ==>
      forall t, f :: 0 <= t < 9 && 0 <= f < 4 ==> 0 <= HomeLabels(draws)[t][f] < 8
  {
    var labels, pos := HomeLabels(draws), HomeLayout();
    forall s | 0 <= s < 9 ensures SlotOkay(labels, pos, s) {
      forall t, u | 0 <= t < 9 && 0 <= u < 9 && pos[t] == s
        ensures LowerNeighbour(s, pos[u]) ==> Meets(labels[t], Down, labels[u])
        ensures RightNeighbour(s, pos[u]) ==> Meets(labels[t], Right, labels[u])
      {
        if LowerNeighbour(s, pos[u]) {
          assert u == t + 3 && u / 3 == t / 3 + 1 && u % 3 == t % 3;
        }
        if RightNeighbour(s, pos[u]) {
          assert u == t + 1 && u / 3 == t / 3 && u % 3 == t % 3 + 1;
        }
      }
    }
  }

  /** The blocks back in their home slots, nothing held, pass the check. */
  lemma HomeLayoutPasses(draws: seq<int>)
    requires |draws| == 24
    ensures Inv(Board(HomeLayout(), None, -1, false))
    ensures CheckOutcome(Board(HomeLayout(), None, -1, false), HomeLabels(draws)) == Pass
  {
    var b := Board(HomeLayout(), None, -1, false);
    forall s | 0 <= s < 9 ensures s in b.pos {
      assert b.pos[s] == s;
    }
    HomeLayoutMatches(draws);
    CheckPassIff(b, HomeLabels(draws));
  }

  /** A permutation of the nine slots. */
  predicate IsPermutation(perm: seq<int>) {
    |perm| == 9 && multiset(perm) == multiset(Range(9))
  }

  /** The scrambled board rests every block on its own slot, holding nothing. */
  lemma ScrambleIsIdle(perm: seq<int>)
    requires IsPermutation(perm)
    ensures Inv(Board(perm, None, -1, false))
  {
    var r := Range(9);
    forall i | 0 <= i < 9 ensures 0 <= perm[i] < 9 {
      assert perm[i] in multiset(r);
    }
    var order := seq(9, i requires 0 <= i < 9 => perm[i] as nat);
    assert order == perm;
    PermutationDistinct(order, 9);
  }
}
