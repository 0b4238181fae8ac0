/**
 A game as a sequence of `make_move` calls on one engine, with no reset in
 between, and what holds of every such sequence.
 */
module Play {
  import opened Board
  import opened TicTacToe

  /** Every move names a cell of the board. */
  predicate AllInRange(moves: seq<Pos>)
  {
    forall k :: 0 <= k < |moves| ==> InRange(moves[k].0, moves[k].1)
  }

  /** Calls `make_move` for each move in turn, collecting what each returns. */
  function Run(g: Game, moves: seq<Pos>): (r: (Game, seq<Outcome>))
    requires Valid(g) && AllInRange(moves)
    ensures Valid(r.0)
    ensures |r.1| == |moves|
    decreases |moves|
  {
    if moves == [] then (g, [])
    else
      var step := MakeMove(g, moves[0].0, moves[0].1);
      var rest := Run(step.0, moves[1..]);
      (rest.0, [step.1] + rest.1)
  }

  /** How many of the outcomes are not the invalid-move result. */
  function Accepted(os: seq<Outcome>): nat
  {
    if os == [] then 0
    else (if os[0] != Invalid then 1 else 0) + Accepted(os[1..])
  }

  /** How many of the outcomes handed the turn over. */
  function Passes(os: seq<Outcome>): nat
  {
    if os == [] then 0
    else (if os[0] == Continue then 1 else 0) + Passes(os[1..])
  }

  /** Only reset clears a cell: whatever moves are made, every mark already
      on the board stays where it is. */
  lemma {:induction false} RunKeepsMarks(g: Game, moves: seq<Pos>)
    requires Valid(g) && AllInRange(moves)
    ensures KeepsMarks(g.board, Run(g, moves).0.board)
    decreases |moves|
  {
    if moves != [] {
      var g1 := MakeMove(g, moves[0].0, moves[0].1).0;
      RunKeepsMarks(g1, moves[1..]);
    }
  }

  /** Each accepted move adds one mark, so the marks on the board count the
      accepted moves; in particular at most nine moves are ever accepted
      between resets. */
  lemma {:induction false} RunCountsMarks(g: Game, moves: seq<Pos>)
    requires Valid(g) && AllInRange(moves)
    ensures Filled(Run(g, moves).0.board) == Filled(g.board) + Accepted(Run(g, moves).1)
    ensures Accepted(Run(g, moves).1) <= 9 - Filled(g.board)
    decreases |moves|
  {
    if moves != [] {
      var step := MakeMove(g, moves[0].0, moves[0].1);
      MoveAddsOneMark(g, moves[0].0, moves[0].1);
      RunCountsMarks(step.0, moves[1..]);
      var rest := Run(step.0, moves[1..]);
      assert ([step.1] + rest.1)[1..] == rest.1;
    }
  }

  /** The turn changes exactly on the moves that return `Continue`: after
      an even number of them the starting player is to move again, after an
      odd number the other player is. */
  lemma {:induction false} RunTurns(g: Game, moves: seq<Pos>)
    requires Valid(g) && AllInRange(moves)
    ensures Run(g, moves).0.current ==
      if Passes(Run(g, moves).1) % 2 == 0 then g.current else 1 - g.current
    decreases |moves|
  {
    if moves != [] {
      var step := MakeMove(g, moves[0].0, moves[0].1);
      var rest := Run(step.0, moves[1..]);
      RunTurns(step.0, moves[1..]);
      var p := Passes(rest.1);
      assert rest.0.current == if p % 2 == 0 then step.0.current else 1 - step.0.current;
      assert Run(g, moves) == (rest.0, [step.1] + rest.1);
      assert ([step.1] + rest.1)[1..] == rest.1;
      if step.1 == Continue {
        assert Passes(Run(g, moves).1) == p + 1;
        assert step.0.current == 1 - g.current;
        OddAfterEven(p);
      } else {
        assert Passes(Run(g, moves).1) == p;
        assert step.0.current == g.current;
      }
    }
  }

  /** One more pass flips the parity of the number of passes. */
  lemma OddAfterEven(p: nat)
    ensures (p + 1) % 2 == 0 <==> p % 2 != 0
  {
  }
}
