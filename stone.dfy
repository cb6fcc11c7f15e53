/// Stones and moves shared by every engine of the repository
/// (src/game_logic/stone.rs, src/stone.rs, src/game_logic/game_move.rs, go/src/game_move.rs).
module Stones {

  datatype Option<T> = None | Some(value: T)

  /// An outcome that is either a value or an error message.
  datatype Result<T> = Ok(value: T) | Err(msg: string)

  /// The three cell markers. `Empty` is also the value of an unoccupied cell.
  datatype Stone = Black | White | Empty

  /// A board position as `(row, col)`; the go/ crate stores `(x, y)` in the same pair.
  type Pos = (nat, nat)

  /// A move record: the colour played, where, and an informational counter.
  datatype GameMove = GameMove(stone: Stone, pos: Pos, moveNumber: nat)

  /// The colour whose turn it is: Black while `turn` holds, White otherwise.
  function ToPlay(turn: bool): (s: Stone)
    ensures s != Empty && (s == Black <==> turn)
  {
    if turn then Black else White
  }

  /// `Stone::get_opponent`: the other colour, and no colour for `Empty`.
  function Opponent(s: Stone): (r: Option<Stone>)
    ensures s == Empty <==> r == None
    ensures r.Some? ==> r.value != Empty && r.value != s
  {
    match s
    case Black => Some(White)
    case White => Some(Black)
    case Empty => None
  }

  /// Taking the opponent twice gives back a played colour.
  lemma OpponentInvolutive(s: Stone)
    requires s != Empty
    ensures Opponent(s).Some? && Opponent(Opponent(s).value) == Some(s)
  {
  }
}
