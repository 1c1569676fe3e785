/** The engine's documented cases: placements and shots the game accepts and rejects, and the
    sunk check at zero and at three hits. */
module ServiceCases {
  import opened Model
  import opened BattleshipService

  /** Straight three-cell placements, in either case, are accepted. */
  lemma AcceptedPlacements()
    ensures ValidateLocation("A1 C1")
    ensures ValidateLocation("A1 A3")
    ensures ValidateLocation("a1 a3")
    ensures ValidateLocation("F8 H8")
    ensures ValidateLocation("H6 H8")
  {
    assert ValidateLocation("A1 C1") by { PlacementValidates("A1 C1"); }
    assert ValidateLocation("A1 A3") by { PlacementValidates("A1 A3"); }
    assert ValidateLocation("a1 a3") by { PlacementValidates("a1 a3"); }
    assert ValidateLocation("F8 H8") by { PlacementValidates("F8 H8"); }
    assert ValidateLocation("H6 H8") by { PlacementValidates("H6 H8"); }
  }

  /** Empty and malformed placements are rejected. */
  lemma MalformedPlacements()
    ensures !ValidateLocation("") && !ValidateLocation(" ")
    ensures !ValidateLocation("A1") && !ValidateLocation("A1 A1 A1")
    ensures !ValidateLocation("11 11") && !ValidateLocation("-") && !ValidateLocation("- -")
  {
    ValidateLocationCharacterised("");
    ValidateLocationCharacterised(" ");
    ValidateLocationCharacterised("A1");
    ValidateLocationCharacterised("A1 A1 A1");
    ValidateLocationCharacterised("11 11");
    ValidateLocationCharacterised("-");
    ValidateLocationCharacterised("- -");
  }

  /** Placements off the board, too long, too short or diagonal are rejected. */
  lemma OutOfRangePlacements()
    ensures !ValidateLocation("A0 C0") && !ValidateLocation("A9 AC9") && !ValidateLocation("I1 I3")
    ensures !ValidateLocation("A1 A4") && !ValidateLocation("A1 A8")
    ensures !ValidateLocation("A1 D1") && !ValidateLocation("A1 C3")
  {
    ValidateLocationCharacterised("A0 C0");
    ValidateLocationCharacterised("A9 AC9");
    ValidateLocationCharacterised("I1 I3");
    ValidateLocationCharacterised("A1 A4");
    ValidateLocationCharacterised("A1 A8");
    ValidateLocationCharacterised("A1 D1");
    ValidateLocationCharacterised("A1 C3");
  }

  /** A placement covers its three cells from the smaller end: "C2 A2" covers A2, B2, C2. */
  lemma ReversedPlacementCells()
    ensures ValidateLocation("C2 A2")
    ensures PlacementCells("C2 A2") == [Point(1, 0), Point(1, 1), Point(1, 2)]
  {
    PlacementValidates("C2 A2");
    PlacementCellsShape("C2 A2");
  }

  /** Against a player who has fired at A1 only: empty, malformed, off-board and repeated shots
      are rejected and B1 is accepted. */
  lemma ShotCases(player: Player)
    requires player.HitsGiven == [Point(0, 0)]
    ensures ValidateShootLocation("", player) == Success(false)
    ensures ValidateShootLocation(" ", player) == Success(false)
    ensures ValidateShootLocation("A", player) == Success(false)
    ensures ValidateShootLocation("A11", player) == Success(false)
    ensures ValidateShootLocation("111", player) == Success(false)
    ensures ValidateShootLocation("-", player) == Success(false)
    ensures ValidateShootLocation("A0", player) == Success(false)
    ensures ValidateShootLocation("I1", player) == Success(false)
    ensures ValidateShootLocation("A9", player) == Success(false)
    ensures ValidateShootLocation("H9", player) == Success(false)
    ensures ValidateShootLocation("A1", player) == Success(false)
    ensures ValidateShootLocation("B1", player) == Success(true)
  {
    ValidateShootLocationCharacterised("A0", player);
    ValidateShootLocationCharacterised("I1", player);
    ValidateShootLocationCharacterised("A9", player);
    ValidateShootLocationCharacterised("H9", player);
    ValidateShootLocationCharacterised("A1", player);
    ValidateShootLocationCharacterised("B1", player);
  }

  /** A player who has taken no hits is afloat; one who has taken three is sunk. */
  lemma SinkCases(player: Player)
    ensures player.SuccessfulShotsReceived == 0 ==> !ValidateShipSink(player)
    ensures player.SuccessfulShotsReceived == 3 ==> ValidateShipSink(player)
  {
  }
}
