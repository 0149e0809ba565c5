/** Twitch Plays support: the two-character cell codes (`B2`, `mr`, ...), the
    slot each one names, and the batch policy applied to a semicolon-separated
    list of commands that has already been classified. */
module TwitchPlays {
  import opened Grid
  import opened Validation

  // ----- Cell codes -----

  /** ASCII upper-casing of one character; every other character is kept. */
  function UpperChar(c: char): (u: char)
    ensures 'a' <= c <= 'z' ==> 'A' <= u <= 'Z' && u as int + 32 == c as int
    ensures !('a' <= c <= 'z') ==> u == c
  {
    if 'a' <= c <= 'z' then (c as int - 32) as char else c
  }

  function Upper(s: string): (u: string)
    ensures |u| == |s| && forall i :: 0 <= i < |s| ==> u[i] == UpperChar(s[i])
  {
    seq(|s|, i requires 0 <= i < |s| => UpperChar(s[i]))
  }

  /** Upper-casing twice changes nothing more. */
  lemma UpperIdempotent(s: string)
    ensures Upper(Upper(s)) == Upper(s)
  {
    forall i | 0 <= i < |s| ensures Upper(Upper(s))[i] == Upper(s)[i] {
      assert !('a' <= Upper(s)[i] <= 'z');
    }
  }

  /** A code the command grammar accepts, in either case: a column letter A-C
      and a row digit 1-3, or a row letter T/M/B and a column letter L/M/R. */
  predicate ValidCode(id: string) {
    && |id| == 2
    && var u0, u1 := UpperChar(id[0]), UpperChar(id[1]);
       || ('A' <= u0 <= 'C' && '1' <= u1 <= '3')
       || ((u0 == 'T' || u0 == 'M' || u0 == 'B') && (u1 == 'L' || u1 == 'M' || u1 == 'R'))
  }

  /** The slot a code selects, reading the code upper-cased. With a row digit
      second, the code is a coordinate: column letter plus three times the
      row. Otherwise the first letter picks the row (M middle, B bottom,
      anything else top) and the second the column (M middle, R right,
      anything else left). */
  function TargetSlot(id: string): (s: int)
    requires |id| >= 2
    ensures ValidCode(id) ==> 0 <= s < 9
  {
    var u0, u1 := UpperChar(id[0]), UpperChar(id[1]);
    if '1' <= u1 <= '3' then
      (u0 as int - 'A' as int) + (u1 as int - '1' as int) * 3
    else
      (if u0 == 'M' then 3 else if u0 == 'B' then 6 else 0)
      + (if u1 == 'M' then 1 else if u1 == 'R' then 2 else 0)
  }

  /** The coordinate code of a slot: column letter, then row digit. */
  function CoordinateCode(s: nat): (code: string)
    requires s < 9
  {
    [('A' as int + s % 3) as char, ('1' as int + s / 3) as char]
  }

  /** The row/column code of a slot: T/M/B, then L/M/R. */
  function GridCode(s: nat): (code: string)
    requires s < 9
  {
    ["TMB"[s / 3], "LMR"[s % 3]]
  }

  /** Both codes of every slot are accepted and select that slot. */
  lemma CodesSelectTheirSlot(s: nat)
    requires s < 9
    ensures ValidCode(CoordinateCode(s)) && TargetSlot(CoordinateCode(s)) == s
    ensures ValidCode(GridCode(s)) && TargetSlot(GridCode(s)) == s
  {
    var c, g := CoordinateCode(s), GridCode(s);
    assert Upper(c) == c;
    assert Upper(g) == g;
  }

  /** Upper-cased, an accepted code is one of the two codes of the slot it
      selects. */
  lemma CodeSpellsItsSlot(id: string)
    requires ValidCode(id)
    ensures Upper(id) == CoordinateCode(TargetSlot(id) as nat) || Upper(id) == GridCode(TargetSlot(id) as nat)
  {
    var u := Upper(id);
    var s := TargetSlot(id) as nat;
    assert u == [u[0], u[1]];
    if '1' <= u[1] <= '3' {
      assert u == CoordinateCode(s);
    } else {
      assert u == GridCode(s);
    }
  }

  /** An accepted code selects slot s exactly when, upper-cased, it is one of
      the two codes of s: the two spellings of a slot are the only ones. */
  lemma CodeNamesSlot(id: string, s: nat)
    requires ValidCode(id) && s < 9
    ensures TargetSlot(id) == s <==> Upper(id) == CoordinateCode(s) || Upper(id) == GridCode(s)
  {
    CodesSelectTheirSlot(s);
    CodeSpellsItsSlot(id);
    UpperIdempotent(id);
    assert TargetSlot(id) == TargetSlot(Upper(id));
  }

  /** Codes are case-insensitive: a code and its upper-case form select the
      same slot. */
  lemma TargetSlotIgnoresCase(id: string)
    requires |id| >= 2
    ensures TargetSlot(Upper(id)) == TargetSlot(id)
  {
    UpperIdempotent(id);
  }

  // ----- The command batch -----

  /** One command of the batch, classified by the command grammar: `check` or
      `submit` (optionally after `press`), a swap of two codes (optionally
      after `swap`), or anything else, kept as typed. */
  datatype Command = CheckCommand | SwapCommand(first: string, second: string) | Unrecognised(text: string)

  /** What the command handler yields to the host, in order: an
      acknowledgement that a command was recognised, a press of a slot, a
      press of the check button, or an error message quoting a command. */
  datatype Yield = Acknowledge | Press(slot: nat) | PressCheck | ChatError(command: string)

  /** Every swap names two accepted codes, as the grammar guarantees. */
  predicate WellClassified(cmds: seq<Command>) {
    forall k :: 0 <= k < |cmds| && cmds[k].SwapCommand? ==>
      ValidCode(cmds[k].first) && ValidCode(cmds[k].second)
  }

  /** The presses of one swap: none when both codes select the same slot,
      else the first slot, the second, then the first again. */
  function SwapPresses(a: string, b: string): (ys: seq<Yield>)
    requires ValidCode(a) && ValidCode(b)
    ensures TargetSlot(a) == TargetSlot(b) ==> ys == []
    ensures TargetSlot(a) != TargetSlot(b) ==>
      ys == [Press(TargetSlot(a) as nat), Press(TargetSlot(b) as nat), Press(TargetSlot(a) as nat)]
  {
    var x, y := TargetSlot(a) as nat, TargetSlot(b) as nat;
    if x == y then [] else [Press(x), Press(y), Press(x)]
  }

  /** The batch policy. A check is acknowledged, presses the check button
      and ends the batch. A swap is acknowledged and pressed, and marks the
      batch as having had a valid command. An unrecognised command is skipped
      while no command has been valid, and otherwise reported as an error
      that ends the batch. */
  function Batch(cmds: seq<Command>, anyValid: bool): (ys: seq<Yield>)
    requires WellClassified(cmds)
    ensures forall k :: 0 <= k < |ys| - 1 ==> !ys[k].ChatError? && !ys[k].PressCheck?
  {
    if cmds == [] then []
    else
      TailClassified(cmds);
      match cmds[0]
      case CheckCommand => [Acknowledge, PressCheck]
      case SwapCommand(a, b) => [Acknowledge] + SwapPresses(a, b) + Batch(cmds[1..], true)
      case Unrecognised(text) => if anyValid then [ChatError(text)] else Batch(cmds[1..], false)
  }

  /** Dropping the first command keeps a batch well classified. */
  lemma TailClassified(cmds: seq<Command>)
    requires WellClassified(cmds) && cmds != []
    ensures WellClassified(cmds[1..])
  {
    forall k | 0 <= k < |cmds| - 1 ensures cmds[1..][k] == cmds[k + 1] { }
  }

  /** Handles a batch of classified commands, one at a time. */
  method ProcessTwitchCommand(cmds: seq<Command>) returns (ys: seq<Yield>)
    requires WellClassified(cmds)
    ensures ys == Batch(cmds, false)
  {
    ys := [];
    var anyCommandValid := false;
    var rest := cmds;
    while rest != []
      invariant WellClassified(rest)
      invariant ys + Batch(rest, anyCommandValid) == Batch(cmds, false)
      decreases |rest|
    {
      TailClassified(rest);
      match rest[0] {
        case CheckCommand =>
          ys := ys + [Acknowledge, PressCheck];
          return;
        case SwapCommand(a, b) =>
          var targetA := TargetSlot(a);
          var targetB := TargetSlot(b);
          ys := ys + [Acknowledge];
          anyCommandValid := true;
          if targetA != targetB {
            ys := ys + [Press(targetA as nat), Press(targetB as nat), Press(targetA as nat)];
          }
        case Unrecognised(text) =>
          if anyCommandValid {
            ys := ys + [ChatError(text)];
            return;
          }
      }
      rest := rest[1..];
    }
  }

  // ----- What the batch policy promises -----

  /** An unrecognised command before any valid one is skipped silently. */
  lemma LeadingUnrecognisedSkipped(text: string, rest: seq<Command>)
    requires WellClassified(rest)
    ensures WellClassified([Unrecognised(text)] + rest)
    ensures Batch([Unrecognised(text)] + rest, false) == Batch(rest, false)
  {
    var cmds := [Unrecognised(text)] + rest;
    assert cmds[1..] == rest;
  }

  /** A batch of swaps only. */
  predicate AllSwaps(cmds: seq<Command>) {
    forall k :: 0 <= k < |cmds| ==> cmds[k].SwapCommand?
  }

  /** After at least one swap, an unrecognised command is reported and ends
      the batch: what follows it is ignored. */
  lemma {:induction false} UnrecognisedAfterSwapStops(swaps: seq<Command>, text: string, rest: seq<Command>, anyValid: bool)
    requires |swaps| > 0 && AllSwaps(swaps) && WellClassified(swaps) && WellClassified(rest)
    ensures WellClassified(swaps + [Unrecognised(text)] + rest)
    ensures Batch(swaps + [Unrecognised(text)] + rest, anyValid) == Batch(swaps, anyValid) + [ChatError(text)]
  {
    var cmds := swaps + [Unrecognised(text)] + rest;
    assert cmds[1..] == swaps[1..] + [Unrecognised(text)] + rest;
    TailClassified(swaps);
    if |swaps| == 1 {
      assert cmds[1..] == [Unrecognised(text)] + rest;
      assert swaps[1..] == [];
    } else {
      UnrecognisedAfterSwapStops(swaps[1..], text, rest, true);
    }
  }

  /** A check ends the batch: whatever follows it is ignored. */
  lemma {:induction false} CheckEndsBatch(before: seq<Command>, rest: seq<Command>, anyValid: bool)
    requires WellClassified(before) && WellClassified(rest)
    ensures WellClassified(before + [CheckCommand] + rest)
    ensures WellClassified(before + [CheckCommand])
    ensures Batch(before + [CheckCommand] + rest, anyValid) == Batch(before + [CheckCommand], anyValid)
  {
    var long, short := before + [CheckCommand] + rest, before + [CheckCommand];
    if before != [] {
      assert long[1..] == before[1..] + [CheckCommand] + rest;
      assert short[1..] == before[1..] + [CheckCommand];
      TailClassified(before);
      CheckEndsBatch(before[1..], rest, true);
      CheckEndsBatch(before[1..], rest, false);
    }
  }

  /** A run of swaps followed by a check yields what the swaps yield, then an
      acknowledgement and a press of the check button. */
  lemma {:induction false} SwapsThenCheck(before: seq<Command>, anyValid: bool)
    requires AllSwaps(before) && WellClassified(before)
    ensures WellClassified(before + [CheckCommand])
    ensures Batch(before + [CheckCommand], anyValid) == Batch(before, anyValid) + [Acknowledge, PressCheck]
  {
    var cmds := before + [CheckCommand];
    if before != [] {
      assert cmds[1..] == before[1..] + [CheckCommand];
      TailClassified(before);
      SwapsThenCheck(before[1..], true);
    }
  }

  /** Swapping a cell with itself is acknowledged and presses nothing. */
  lemma SelfSwapPressesNothing(a: string, b: string, rest: seq<Command>, anyValid: bool)
    requires ValidCode(a) && ValidCode(b) && TargetSlot(a) == TargetSlot(b) && WellClassified(rest)
    ensures WellClassified([SwapCommand(a, b)] + rest)
    ensures Batch([SwapCommand(a, b)] + rest, anyValid) == [Acknowledge] + Batch(rest, true)
  {
    var cmds := [SwapCommand(a, b)] + rest;
    assert cmds[1..] == rest;
  }

  /** Every press the batch makes selects one of the nine slots. */
  lemma {:induction false} PressesInRange(cmds: seq<Command>, anyValid: bool)
    requires WellClassified(cmds)
    ensures forall k :: 0 <= k < |Batch(cmds, anyValid)| && Batch(cmds, anyValid)[k].Press? ==>
      Batch(cmds, anyValid)[k].slot < 9
  {
    if cmds != [] {
      TailClassified(cmds);
      PressesInRange(cmds[1..], true);
      PressesInRange(cmds[1..], false);
    }
  }

  // ----- The presses played on the board -----

  /** The board after the presses: a slot press is a touch, a check-button
      press is the check; acknowledgements and errors change nothing. */
  function Replay(b: Board, labels: seq<seq<int>>, ys: seq<Yield>): (r: Board)
    requires Inv(b) && WellFormedLabels(labels)
    requires forall k :: 0 <= k < |ys| && ys[k].Press? ==> ys[k].slot < 9
    ensures Inv(r)
    decreases |ys|
  {
    if ys == [] then b
    else
      var next := match ys[0]
        case Press(s) => (TouchKeepsInv(b, s); Touch(b, s))
        case PressCheck => (CheckKeepsInv(b, labels); AfterCheck(b, labels))
        case _ => b;
      Replay(next, labels, ys[1..])
  }

  /** A swap of two different cells is acknowledged, then presses the first
      cell, the second and the first again. */
  lemma SwapOfTwoCells(a: string, c: string)
    requires ValidCode(a) && ValidCode(c) && TargetSlot(a) != TargetSlot(c)
    ensures WellClassified([SwapCommand(a, c)])
    ensures Batch([SwapCommand(a, c)], false) ==
      [Acknowledge, Press(TargetSlot(a) as nat), Press(TargetSlot(c) as nat), Press(TargetSlot(a) as nat)]
  {
    var cmds := [SwapCommand(a, c)];
    assert cmds[1..] == [];
  }

  /** Replaying an acknowledgement and three presses is three touches. */
  lemma ReplayThreePresses(b: Board, labels: seq<seq<int>>, x: nat, y: nat)
    requires Inv(b) && WellFormedLabels(labels) && x < 9 && y < 9
    ensures Inv(Touch(b, x)) && Inv(Touch(Touch(b, x), y))
    ensures Replay(b, labels, [Acknowledge, Press(x), Press(y), Press(x)]) == Touch(Touch(Touch(b, x), y), x)
  {
    TouchKeepsInv(b, x);
    var b1 := Touch(b, x);
    TouchKeepsInv(b1, y);
    var b2 := Touch(b1, y);
    TouchKeepsInv(b2, x);
    var b3 := Touch(b2, x);
    assert [Press(x)][1..] == [];
    assert Replay(b2, labels, [Press(x)]) == b3;
    assert [Press(y), Press(x)][1..] == [Press(x)];
    assert Replay(b1, labels, [Press(y), Press(x)]) == b3;
    assert [Press(x), Press(y), Press(x)][1..] == [Press(y), Press(x)];
    assert Replay(b, labels, [Press(x), Press(y), Press(x)]) == b3;
    assert [Acknowledge, Press(x), Press(y), Press(x)][1..] == [Press(x), Press(y), Press(x)];
  }

  /** On an idle, unsolved board, a swap of two different cells exchanges
      their blocks, moves no other block and leaves the board idle. */
  lemma SwapCommandExchanges(b: Board, labels: seq<seq<int>>, a: string, c: string)
    requires Inv(b) && !b.solved && b.held.None? && WellFormedLabels(labels)
    requires ValidCode(a) && ValidCode(c) && TargetSlot(a) != TargetSlot(c)
    ensures WellClassified([SwapCommand(a, c)])
    ensures Batch([SwapCommand(a, c)], false) ==
      [Acknowledge, Press(TargetSlot(a) as nat), Press(TargetSlot(c) as nat), Press(TargetSlot(a) as nat)]
    ensures var x, y, r := TargetSlot(a), TargetSlot(c), Replay(b, labels, Batch([SwapCommand(a, c)], false));
      && r.held.None? && !r.solved
      && TileAt(r.pos, x) == TileAt(b.pos, y)
      && TileAt(r.pos, y) == TileAt(b.pos, x)
      && SameElsewhere(b.pos, r.pos, x, y)
  {
    var x, y := TargetSlot(a) as nat, TargetSlot(c) as nat;
    SwapOfTwoCells(a, c);
    ReplayThreePresses(b, labels, x, y);
    ExchangeByThreeTouches(b, x, y);
  }
}
