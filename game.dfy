/** The placeholder game: it knows only whether it has been moved down, and
    shows one of two fixed fields of plain numbers. */
module GameStub {

  /** The single 2 sits in the first column, in row 2 before the move and
      in row 3 after it; every other cell is 0. */
  ghost predicate SingleTwoAt(g: seq<seq<nat>>, row: nat) {
    |g| == 4 && (forall i | 0 <= i < 4 :: |g[i]| == 4)
    && (forall i, j | 0 <= i < 4 && 0 <= j < 4 :: g[i][j] == (if i == row && j == 0 then 2 else 0))
  }

  class Game {
    var isMoved: bool

    /** `Game::new` (and `Default`): not yet moved. */
    constructor ()
      ensures !isMoved
      ensures SingleTwoAt(GetField(), 2)
    {
      isMoved := false;
    }

    /** `get_score`: 0, whatever the state. */
    function GetScore(): (score: nat)
      ensures score == 0
    {
      0
    }

    /** `get_field`. */
    function GetField(): (g: seq<seq<nat>>)
      reads this
      ensures SingleTwoAt(g, if isMoved then 3 else 2)
    {
      if isMoved then [[0, 0, 0, 0], [0, 0, 0, 0], [0, 0, 0, 0], [2, 0, 0, 0]]
      else [[0, 0, 0, 0], [0, 0, 0, 0], [2, 0, 0, 0], [0, 0, 0, 0]]
    }

    /** `move_down`: from now on the 2 is shown in the last row, however
        often the game is moved. */
    method MoveDown()
      modifies this
      ensures isMoved
      ensures SingleTwoAt(GetField(), 3)
    {
      isMoved := true;
    }
  }

  /** Moving down twice leaves the same field as moving down once. */
  method MoveDownTwice(game: Game) returns (once: seq<seq<nat>>, twice: seq<seq<nat>>)
    modifies game
    ensures once == twice
    ensures SingleTwoAt(twice, 3)
  {
    game.MoveDown();
    once := game.GetField();
    game.MoveDown();
    twice := game.GetField();
  }

  /** A fresh game shows its 2 in row 2 and scores 0. */
  method NewGame() returns (field: seq<seq<nat>>, score: nat)
    ensures SingleTwoAt(field, 2)
    ensures score == 0
  {
    var game := new Game();
    field := game.GetField();
    score := game.GetScore();
  }
}
