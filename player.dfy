/** The game's entities: a board coordinate and a player whose state the engine updates in place. */
module Model {

  /** A zero-based board coordinate, compared by value. */
  datatype Point = Point(Row: int, Column: int)

  /** A player: the board the opponent fires at, the cells of the player's own ship,
      the cells this player has fired at, and how many of the opponent's shots hit. */
  class Player {
    var Id: int
    var Board: array2<char>
    var ShipPosition: seq<Point>
    var HitsGiven: seq<Point>
    var SuccessfulShotsReceived: int
    var Turn: bool

    /** `new Player { Id = id, Board = board, Turn = turn }`: the constructor starts both
        lists empty and the counter at 0, and the initializer sets the other fields. */
    constructor (id: int, board: array2<char>, turn: bool)
      ensures Id == id && Board == board && Turn == turn
      ensures ShipPosition == [] && HitsGiven == [] && SuccessfulShotsReceived == 0
    {
      Id := id;
      Board := board;
      ShipPosition := [];
      HitsGiven := [];
      SuccessfulShotsReceived := 0;
      Turn := turn;
    }
  }
}
