/// The game of the older go/ crate (go/src/game.rs): a board, whose turn it
/// is and the move counter. A move reads a line, trims and upper-cases it,
/// parses it column first, and on success builds the move record and passes
/// the turn; a parse error is returned before anything changes.
module GoGame {
  import opened Stones
  import opened Text
  import opened GoParsers
  import GoBoard
  import Grids

  /// What one `make_move` yields: its result and the new turn and counter.
  datatype MoveStep = MoveStep(outcome: Result<GameMove>, turn: bool, moveNumber: nat)

  /// `make_move` on the line `get_move` read, up to the board update. The
  /// move record it would hand to the board is the result.
  function MoveSpec(turn: bool, moveNumber: nat, line: seq<char>): MoveStep
    requires ColumnFirstDefined(Normalized(line))
  {
    match ParseColumnFirst(Normalized(line))
    case Err(msg) => MoveStep(Err(msg), turn, moveNumber)
    case Ok((x, y)) => MoveStep(Ok(GameMove(ToPlay(turn), (x, y), moveNumber + 1)), !turn, moveNumber + 1)
  }

  /// A move succeeds exactly when the trimmed, upper-cased line is a letter
  /// and digits. A failed move changes neither the turn nor the counter. A
  /// successful one plays the colour whose turn it was, counts one more
  /// move, passes the turn, and names column `number - 1` and the row of an
  /// upper-case letter.
  lemma MoveOutcome(turn: bool, moveNumber: nat, line: seq<char>)
    requires ColumnFirstDefined(Normalized(line))
    ensures var step := MoveSpec(turn, moveNumber, line);
      var mv := Normalized(line);
      && (step.outcome.Ok? <==> WellShaped(mv))
      && (step.outcome.Err? ==> step.turn == turn && step.moveNumber == moveNumber)
      && (step.outcome.Ok? ==>
            && step.turn == !turn && step.moveNumber == moveNumber + 1
            && step.outcome.value.stone == ToPlay(turn)
            && step.outcome.value.moveNumber == moveNumber + 1
            && step.outcome.value.pos.1 < 26
            && step.outcome.value.pos.0 + 1 == DecimalValue(mv[1..]))
  {
  }

  /// `get_move` on the line of the crate's integration test.
  lemma GetMoveExample()
    ensures Normalized("a1\n") == "A1"
    ensures MoveSpec(true, 0, "a1\n") == MoveStep(Ok(GameMove(Black, (0, 0), 1)), false, 1)
  {
    var line := "a1\n";
    assert line[0] == 'a' && !IsWhitespace(line[0]);
    assert TrimStart(line) == line;
    assert line[2] == '\n' && IsWhitespace(line[2]) && line[..2] == "a1";
    assert TrimEnd(line) == TrimEnd("a1");
    assert TrimEnd("a1") == "a1";
    assert "A1"[1..] == "1" && "1"[..0] == "";
  }

  class Game {
    const board: GoBoard.Board
    var turn: bool
    var moveNumber: nat

    /// `Game::new_game(width, height)`.
    constructor NewGame(width: nat, height: nat)
      ensures board.Valid() && board.width == width && board.height == height
      ensures board.state == Grids.Filled(width, height, Some(Empty))
      ensures turn && moveNumber == 0 && fresh(board)
    {
      board := new GoBoard.Board(width, height);
      turn := true;
      moveNumber := 0;
    }

    /// `make_move` on the line read by `get_move`; the result carries the
    /// move record on success.
    method MakeMove(line: seq<char>) returns (r: Result<GameMove>)
      requires ColumnFirstDefined(Normalized(line))
      modifies this
      ensures MoveStep(r, turn, moveNumber) == MoveSpec(old(turn), old(moveNumber), line)
    {
      var parsed := ParseColumnFirst(Normalized(line));
      if parsed.Err? {
        return Err(parsed.msg);
      }
      var (x, y) := parsed.value;
      var stn := if turn then Black else White;
      moveNumber := moveNumber + 1;
      r := Ok(GameMove(stn, (x, y), moveNumber));
      turn := !turn;
    }
  }
}
