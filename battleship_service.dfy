/** The game-rules engine: coordinate decoding, ship placement, shot handling and the win check. */
module BattleshipService {
  import opened Strings
  import opened Model
  import opened ShotAccounting

  /** The exception the engine can raise on an input its validators let through. */
  datatype Fault = IndexOutOfRange

  datatype Result<T> = Success(value: T) | Failure(error: Fault)

  const ValidLetters: seq<char> := ['A', 'B', 'C', 'D', 'E', 'F', 'G', 'H']
  const BoardRows: int := 8
  const BoardColumns: int := 8
  const ShootsToSink: int := 3
  const DefaultChar: char := '-'
  const ShipChar: char := 'S'
  const HitChar: char := 'X'

  // ---------------------------------------------------------------------------
  // Players and boards

  predicate HasStandardBoard(player: Player)
    reads player
  {
    player.Board.Length0 == BoardRows && player.Board.Length1 == BoardColumns
  }

  /** A player as `GetPlayers` makes one: an empty board, no ship, no shots, no hits. */
  predicate IsNewPlayer(player: Player)
    reads player, player.Board
  {
    && HasStandardBoard(player)
    && (forall i, j :: 0 <= i < BoardRows && 0 <= j < BoardColumns ==> player.Board[i, j] == DefaultChar)
    && player.ShipPosition == [] && player.HitsGiven == [] && player.SuccessfulShotsReceived == 0
  }

  method CreateBoard() returns (result: array2<char>)
    ensures fresh(result)
    ensures result.Length0 == BoardRows && result.Length1 == BoardColumns
    ensures forall i, j :: 0 <= i < BoardRows && 0 <= j < BoardColumns ==> result[i, j] == DefaultChar
  {
    result := new char[BoardRows, BoardColumns];
    for i := 0 to BoardRows
      invariant forall r, c :: 0 <= r < i && 0 <= c < BoardColumns ==> result[r, c] == DefaultChar
    {
      for j := 0 to BoardColumns
        invariant forall r, c :: 0 <= r < i && 0 <= c < BoardColumns ==> result[r, c] == DefaultChar
        invariant forall c :: 0 <= c < j ==> result[i, c] == DefaultChar
      {
        result[i, j] := DefaultChar;
      }
    }
  }

  method GetPlayers() returns (players: seq<Player>)
    ensures |players| == 2
    ensures players[0].Id == 1 && players[0].Turn
    ensures players[1].Id == 2 && !players[1].Turn
    ensures fresh(players[0]) && fresh(players[0].Board) && IsNewPlayer(players[0])
    ensures fresh(players[1]) && fresh(players[1].Board) && IsNewPlayer(players[1])
    ensures players[0] != players[1] && players[0].Board != players[1].Board
  {
    var board1 := CreateBoard();
    var player1 := new Player(1, board1, true);
    var board2 := CreateBoard();
    var player2 := new Player(2, board2, false);
    players := [player1, player2];
  }

  // ---------------------------------------------------------------------------
  // Coordinate decoding

  /** Upper-casing of the ASCII letters; every other character is its own upper case. */
  function ToUpper(c: char): (u: char)
    ensures 'a' <= c <= 'z' ==> u as int == c as int - 32
    ensures !('a' <= c <= 'z') ==> u == c
  {
    if 'a' <= c <= 'z' then (c as int - 32) as char else c
  }

  predicate EqualsIgnoreCase(a: char, b: char) {
    ToUpper(a) == ToUpper(b)
  }

  /** `FindIndex` with a case-insensitive comparison, scanning from the front. */
  function FindIndexIgnoreCase(letters: seq<char>, letter: char): int {
    if letters == [] then -1
    else if EqualsIgnoreCase(letters[0], letter) then 0
    else
      var k := FindIndexIgnoreCase(letters[1..], letter);
      if k == -1 then -1 else k + 1
  }

  /** The search yields the first position holding `letter` up to case, or -1 exactly when
      there is none. */
  lemma {:induction false} FindIndexIgnoreCaseFirstMatch(letters: seq<char>, letter: char)
    ensures var r := FindIndexIgnoreCase(letters, letter);
      && -1 <= r < |letters|
      && (r >= 0 ==> EqualsIgnoreCase(letters[r], letter))
      && (r >= 0 ==> forall j :: 0 <= j < r ==> !EqualsIgnoreCase(letters[j], letter))
      && (r == -1 <==> forall j :: 0 <= j < |letters| ==> !EqualsIgnoreCase(letters[j], letter))
  {
    if letters != [] && !EqualsIgnoreCase(letters[0], letter) {
      FindIndexIgnoreCaseFirstMatch(letters[1..], letter);
      assert forall j :: 1 <= j < |letters| ==> letters[j] == letters[1..][j - 1];
    }
  }

  function GetPositionFromLetter(letter: char): int {
    FindIndexIgnoreCase(ValidLetters, letter)
  }

  predicate IsBoardLetter(c: char) {
    'A' <= c <= 'H' || 'a' <= c <= 'h'
  }

  predicate IsBoardDigit(c: char) {
    '1' <= c <= '8'
  }

  /** The column a letter names, read off the alphabet directly. */
  function LetterIndex(letter: char): int {
    if 'A' <= letter <= 'H' then letter as int - 'A' as int
    else if 'a' <= letter <= 'h' then letter as int - 'a' as int
    else -1
  }

  /** The point a letter and a digit name, when both are on the board. */
  function Decode(letter: char, digit: char): Point {
    Point(digit as int - '1' as int, LetterIndex(letter))
  }

  /** A letter decodes to its position in A..H compared without regard to case, and any other
      character to -1. */
  lemma GetPositionFromLetterIsLetterIndex(letter: char)
    ensures GetPositionFromLetter(letter) == LetterIndex(letter)
    ensures 0 <= GetPositionFromLetter(letter) < BoardColumns <==> IsBoardLetter(letter)
  {
    var r := GetPositionFromLetter(letter);
    FindIndexIgnoreCaseFirstMatch(ValidLetters, letter);
    if IsBoardLetter(letter) {
      var k := LetterIndex(letter);
      ValidLetterAt(k);
      assert EqualsIgnoreCase(ValidLetters[k], letter);
      ValidLetterAt(r);
    } else {
      forall j | 0 <= j < |ValidLetters| ensures !EqualsIgnoreCase(ValidLetters[j], letter) {
        ValidLetterAt(j);
      }
    }
  }

  /** The alphabet holds the upper-case letters A..H in order. */
  lemma ValidLetterAt(j: int)
    requires 0 <= j < |ValidLetters|
    ensures ValidLetters[j] as int == 'A' as int + j
  {
  }

  /** One token of a location string decoded to a point: the column from its first character,
      the row from its second, which must therefore exist. */
  function ParseToken(token: string): Point
    requires |token| >= 2
  {
    var parsed := TryParseDigit(token[1]);
    Point(parsed.1 - 1, GetPositionFromLetter(token[0]))
  }

  /** Every token has the two characters that decoding reads. */
  predicate AllTokensReadable(tokens: seq<string>) {
    forall i :: 0 <= i < |tokens| ==> |tokens[i]| >= 2
  }

  /** A point per token, or the exception raised on the first token shorter than two characters. */
  function ParseTokens(tokens: seq<string>): Result<seq<Point>> {
    if AllTokensReadable(tokens)
    then Success(seq(|tokens|, i requires 0 <= i < |tokens| => ParseToken(tokens[i])))
    else Failure(IndexOutOfRange)
  }

  /** What `GetPointsFromLocation` computes: the tokens of the split on spaces, decoded. */
  function PointsOf(location: string): (r: Result<seq<Point>>)
    ensures r.Success? ==> |r.value| == |Split(location, ' ')|
  {
    ParseTokens(Split(location, ' '))
  }

  method GetPointsFromLocation(location: string) returns (result: Result<seq<Point>>)
    ensures result == PointsOf(location)
  {
    var tokens := Split(location, ' ');
    var points: seq<Point> := [];
    var i := 0;
    while i < |tokens|
      invariant 0 <= i <= |tokens|
      invariant forall j :: 0 <= j < i ==> |tokens[j]| >= 2
      invariant |points| == i
      invariant forall j :: 0 <= j < i ==> points[j] == ParseToken(tokens[j])
    {
      var token := tokens[i];
      if |token| < 2 {
        assert !AllTokensReadable(tokens);
        return Failure(IndexOutOfRange);
      }
      var parsed := TryParseDigit(token[1]);
      var point := Point(parsed.1 - 1, GetPositionFromLetter(token[0]));
      points := points + [point];
      i := i + 1;
    }
    assert AllTokensReadable(tokens);
    assert points == seq(|tokens|, j requires 0 <= j < |tokens| => ParseToken(tokens[j]));
    return Success(points);
  }

  /** Decoding succeeds exactly when every token is readable, and then yields a point per token. */
  lemma ParseTokensElements(tokens: seq<string>)
    ensures ParseTokens(tokens).Success? <==> AllTokensReadable(tokens)
    ensures ParseTokens(tokens).Success? ==>
      |ParseTokens(tokens).value| == |tokens|
      && forall i :: 0 <= i < |tokens| ==> ParseTokens(tokens).value[i] == ParseToken(tokens[i])
  {
  }

  predicate InBoard(p: Point) {
    0 <= p.Column < BoardColumns && 0 <= p.Row < BoardRows
  }

  predicate ValidatePointsRanges(points: seq<Point>) {
    forall i :: 0 <= i < |points| ==> InBoard(points[i])
  }

  /** A decoded token is on the board exactly when its letter is one of A..H (either case) and its
      digit one of 1..8; on the board it is the point the two characters name. */
  lemma ParseTokenInRange(token: string)
    requires |token| >= 2
    ensures InBoard(ParseToken(token)) <==> IsBoardLetter(token[0]) && IsBoardDigit(token[1])
    ensures InBoard(ParseToken(token)) ==> ParseToken(token) == Decode(token[0], token[1])
  {
    GetPositionFromLetterIsLetterIndex(token[0]);
  }

  // ---------------------------------------------------------------------------
  // Placement

  /** `Math.Abs(a - b) == 2`. */
  function ValidDistance(a: int, b: int): (r: bool)
    ensures r <==> a == b + 2 || b == a + 2
  {
    var d := a - b;
    (if d < 0 then -d else d) == 2
  }

  predicate ValidateShipSize(points: seq<Point>)
    requires |points| > 0
  {
    var first, last := points[0], points[|points| - 1];
    (first.Column == last.Column && ValidDistance(first.Row, last.Row))
    || (first.Row == last.Row && ValidDistance(first.Column, last.Column))
  }

  function ValidateLocation(location: string): bool {
    if IsNullOrWhiteSpace(location) then false
    else
      var tokens := Split(location, ' ');
      if |tokens| != 2 || exists i :: 0 <= i < |tokens| && |tokens[i]| != 2 then false
      else
        var points := PointsOf(location);
        assert points.Success?;
        ValidatePointsRanges(points.value) && ValidateShipSize(points.value)
  }

  /** Two endpoints that bound a straight three-cell segment. */
  predicate ShipShape(a: Point, b: Point) {
    (a.Column == b.Column && (a.Row == b.Row + 2 || b.Row == a.Row + 2))
    || (a.Row == b.Row && (a.Column == b.Column + 2 || b.Column == a.Column + 2))
  }

  /** The placement grammar: two letter-digit pairs on the board, one space between them. */
  predicate WellFormedPlacement(location: string) {
    && |location| == 5 && location[2] == ' '
    && IsBoardLetter(location[0]) && IsBoardDigit(location[1])
    && IsBoardLetter(location[3]) && IsBoardDigit(location[4])
  }

  /** A location is accepted exactly when it is two on-board letter-digit pairs separated by
      one space whose points are the ends of a straight three-cell segment. */
  lemma ValidateLocationCharacterised(location: string)
    ensures ValidateLocation(location) <==>
      WellFormedPlacement(location)
      && ShipShape(Decode(location[0], location[1]), Decode(location[3], location[4]))
  {
    if ValidateLocation(location) {
      ValidatedEndpoints(location);
    }
    if WellFormedPlacement(location)
      && ShipShape(Decode(location[0], location[1]), Decode(location[3], location[4]))
    {
      PlacementValidates(location);
    }
  }

  /** A well-formed placement whose endpoints bound a three-cell segment is accepted. */
  lemma PlacementValidates(location: string)
    requires WellFormedPlacement(location)
    requires ShipShape(Decode(location[0], location[1]), Decode(location[3], location[4]))
    ensures ValidateLocation(location)
  {
    var t0, t1 := location[..2], location[3..];
    PlacementSplits(location);
    var tokens := Split(location, ' ');
    assert forall i :: 0 <= i < |tokens| ==> |tokens[i]| == 2 by {
      forall i | 0 <= i < |tokens| ensures |tokens[i]| == 2 {
        assert i == 0 || i == 1;
      }
    }
    TwoTokensDecode(t0, t1);
    assert !IsNullOrWhiteSpace(location) by {
      assert !IsWhiteSpace(location[0]);
    }
    var points := PointsOf(location).value;
    assert points == [Decode(location[0], location[1]), Decode(location[3], location[4])];
    assert ValidatePointsRanges(points);
    assert ValidateShipSize(points) by {
      assert points[|points| - 1] == points[1];
    }
  }

  /** A well-formed placement splits into its two letter-digit pairs. */
  lemma PlacementSplits(location: string)
    requires WellFormedPlacement(location)
    ensures location == location[..2] + [' '] + location[3..]
    ensures Split(location, ' ') == [location[..2], location[3..]]
  {
    var t0, t1 := location[..2], location[3..];
    assert location == Join([t0, t1], ' ');
    SplitJoin([t0, t1], ' ');
  }

  /** The points of two two-character tokens, and their range check. */
  lemma TwoTokensDecode(t0: string, t1: string)
    requires |t0| == 2 && |t1| == 2
    ensures ParseTokens([t0, t1]) == Success([ParseToken(t0), ParseToken(t1)])
    ensures ValidatePointsRanges(ParseTokens([t0, t1]).value) <==> WellFormedPlacement(t0 + [' '] + t1)
    ensures WellFormedPlacement(t0 + [' '] + t1) ==>
      ParseTokens([t0, t1]).value == [Decode(t0[0], t0[1]), Decode(t1[0], t1[1])]
  {
    ParseTokensElements([t0, t1]);
    var points := ParseTokens([t0, t1]).value;
    assert points == [ParseToken(t0), ParseToken(t1)];
    var location := t0 + [' '] + t1;
    assert location[0] == t0[0] && location[1] == t0[1] && location[2] == ' ';
    assert location[3] == t1[0] && location[4] == t1[1];
    assert ValidatePointsRanges(points) <==> InBoard(points[0]) && InBoard(points[1]) by {
      if InBoard(points[0]) && InBoard(points[1]) {
        forall i | 0 <= i < |points| ensures InBoard(points[i]) {
          assert i == 0 || i == 1;
        }
      }
    }
    ParseTokenInRange(t0);
    ParseTokenInRange(t1);
  }

  /** The two endpoints of a validated location, read off its characters. */
  lemma ValidatedEndpoints(location: string)
    requires ValidateLocation(location)
    ensures WellFormedPlacement(location)
    ensures PointsOf(location) == Success([Decode(location[0], location[1]), Decode(location[3], location[4])])
    ensures ShipShape(Decode(location[0], location[1]), Decode(location[3], location[4]))
    ensures ValidatePointsRanges(PointsOf(location).value)
  {
    var tokens := Split(location, ' ');
    assert |tokens| == 2 && |tokens[0]| == 2 && |tokens[1]| == 2;
    var t0, t1 := tokens[0], tokens[1];
    assert tokens == [t0, t1];
    JoinSplit(location, ' ');
    JoinAfterToken(t0, ' ', [t1]);
    assert location == t0 + [' '] + t1;
    TwoTokensDecode(t0, t1);
    var points := PointsOf(location).value;
    assert ValidateShipSize(points);
    assert points[|points| - 1] == points[1];
  }

  /** The cells from row `fromRow` to row `toRow` of one column, top to bottom. */
  function VerticalCells(column: int, fromRow: int, toRow: int): (cells: seq<Point>)
    decreases toRow - fromRow
  {
    if toRow < fromRow then [] else VerticalCells(column, fromRow, toRow - 1) + [Point(toRow, column)]
  }

  /** The cells from column `fromColumn` to column `toColumn` of one row, left to right. */
  function HorizontalCells(row: int, fromColumn: int, toColumn: int): (cells: seq<Point>)
    decreases toColumn - fromColumn
  {
    if toColumn < fromColumn then [] else HorizontalCells(row, fromColumn, toColumn - 1) + [Point(row, toColumn)]
  }

  function Rows(points: seq<Point>): (rows: seq<int>)
    ensures |rows| == |points| && forall i :: 0 <= i < |points| ==> rows[i] == points[i].Row
  {
    seq(|points|, i requires 0 <= i < |points| => points[i].Row)
  }

  function Columns(points: seq<Point>): (columns: seq<int>)
    ensures |columns| == |points| && forall i :: 0 <= i < |points| ==> columns[i] == points[i].Column
  {
    seq(|points|, i requires 0 <= i < |points| => points[i].Column)
  }

  /** LINQ `Min`: an element no greater than any other. */
  function Minimum(xs: seq<int>): (m: int)
    requires |xs| > 0
    ensures forall i :: 0 <= i < |xs| ==> m <= xs[i]
  {
    if |xs| == 1 then xs[0]
    else
      var rest := Minimum(xs[1..]);
      if xs[0] <= rest then xs[0] else rest
  }

  /** LINQ `Max`: an element no smaller than any other. */
  function Maximum(xs: seq<int>): (m: int)
    requires |xs| > 0
    ensures forall i :: 0 <= i < |xs| ==> xs[i] <= m
  {
    if |xs| == 1 then xs[0]
    else
      var rest := Maximum(xs[1..]);
      if xs[0] >= rest then xs[0] else rest
  }

  /** The minimum and the maximum are elements of the sequence. */
  lemma {:induction false} ExtremaAreElements(xs: seq<int>)
    requires |xs| > 0
    ensures Minimum(xs) in xs && Maximum(xs) in xs
  {
    if |xs| > 1 {
      ExtremaAreElements(xs[1..]);
    }
  }

  /** A cell lies in a vertical run exactly when it has the run's column and a row between its ends. */
  lemma {:induction false} InVerticalCells(p: Point, column: int, fromRow: int, toRow: int)
    ensures p in VerticalCells(column, fromRow, toRow) <==> p.Column == column && fromRow <= p.Row <= toRow
    decreases toRow - fromRow
  {
    if fromRow <= toRow {
      InVerticalCells(p, column, fromRow, toRow - 1);
    }
  }

  /** A cell lies in a horizontal run exactly when it has the run's row and a column between its ends. */
  lemma {:induction false} InHorizontalCells(p: Point, row: int, fromColumn: int, toColumn: int)
    ensures p in HorizontalCells(row, fromColumn, toColumn) <==> p.Row == row && fromColumn <= p.Column <= toColumn
    decreases toColumn - fromColumn
  {
    if fromColumn <= toColumn {
      InHorizontalCells(p, row, fromColumn, toColumn - 1);
    }
  }

  method CreateVerticalShip(player: Player, pointList: seq<Point>)
    requires |pointList| > 0 && HasStandardBoard(player)
    requires 0 <= pointList[0].Column < BoardColumns
    requires 0 <= Minimum(Rows(pointList)) && Maximum(Rows(pointList)) < BoardRows
    modifies player`ShipPosition, player.Board
    ensures player.ShipPosition == old(player.ShipPosition)
      + VerticalCells(pointList[0].Column, Minimum(Rows(pointList)), Maximum(Rows(pointList)))
    ensures forall r, c :: 0 <= r < BoardRows && 0 <= c < BoardColumns ==>
      player.Board[r, c] == if Point(r, c) in VerticalCells(pointList[0].Column, Minimum(Rows(pointList)), Maximum(Rows(pointList))) then ShipChar else old(player.Board[r, c])
  {
    var column := pointList[0].Column;
    var fromRow, toRow := Minimum(Rows(pointList)), Maximum(Rows(pointList));
    var row := fromRow;
    while row <= toRow
      invariant fromRow <= row <= toRow + 1
      invariant player.ShipPosition == old(player.ShipPosition) + VerticalCells(column, fromRow, row - 1)
      invariant forall r, c :: 0 <= r < BoardRows && 0 <= c < BoardColumns ==>
        player.Board[r, c] == if c == column && fromRow <= r < row then ShipChar else old(player.Board[r, c])
      decreases toRow - row
    {
      player.Board[row, column] := ShipChar;
      player.ShipPosition := player.ShipPosition + [Point(row, column)];
      row := row + 1;
    }
    forall r, c | 0 <= r < BoardRows && 0 <= c < BoardColumns
      ensures Point(r, c) in VerticalCells(column, fromRow, row - 1) <==> c == column && fromRow <= r < row
    {
      InVerticalCells(Point(r, c), column, fromRow, row - 1);
    }
  }

  method CreateHorizontalShip(player: Player, pointList: seq<Point>)
    requires |pointList| > 0 && HasStandardBoard(player)
    requires 0 <= pointList[0].Row < BoardRows
    requires 0 <= Minimum(Columns(pointList)) && Maximum(Columns(pointList)) < BoardColumns
    modifies player`ShipPosition, player.Board
    ensures player.ShipPosition == old(player.ShipPosition)
      + HorizontalCells(pointList[0].Row, Minimum(Columns(pointList)), Maximum(Columns(pointList)))
    ensures forall r, c :: 0 <= r < BoardRows && 0 <= c < BoardColumns ==>
      player.Board[r, c] == if Point(r, c) in HorizontalCells(pointList[0].Row, Minimum(Columns(pointList)), Maximum(Columns(pointList))) then ShipChar else old(player.Board[r, c])
  {
    var row := pointList[0].Row;
    var fromColumn, toColumn := Minimum(Columns(pointList)), Maximum(Columns(pointList));
    var column := fromColumn;
    while column <= toColumn
      invariant fromColumn <= column <= toColumn + 1
      invariant player.ShipPosition == old(player.ShipPosition) + HorizontalCells(row, fromColumn, column - 1)
      invariant forall r, c :: 0 <= r < BoardRows && 0 <= c < BoardColumns ==>
        player.Board[r, c] == if r == row && fromColumn <= c < column then ShipChar else old(player.Board[r, c])
      decreases toColumn - column
    {
      player.Board[row, column] := ShipChar;
      player.ShipPosition := player.ShipPosition + [Point(row, column)];
      column := column + 1;
    }
    forall r, c | 0 <= r < BoardRows && 0 <= c < BoardColumns
      ensures Point(r, c) in HorizontalCells(row, fromColumn, column - 1) <==> r == row && fromColumn <= c < column
    {
      InHorizontalCells(Point(r, c), row, fromColumn, column - 1);
    }
  }

  /** The cells the engine writes for the endpoints `points`: down the column when the first and
      last point share one, otherwise along the row. */
  function SegmentCells(points: seq<Point>): seq<Point>
    requires |points| > 0
  {
    if points[0].Column == points[|points| - 1].Column
    then VerticalCells(points[0].Column, Minimum(Rows(points)), Maximum(Rows(points)))
    else HorizontalCells(points[0].Row, Minimum(Columns(points)), Maximum(Columns(points)))
  }

  /** The cells a validated location covers, in the order the engine appends them. */
  function PlacementCells(location: string): seq<Point>
    requires ValidateLocation(location)
  {
    SegmentCells(PointsOf(location).value)
  }

  /** The three cells between two endpoints of a straight three-cell segment, smaller end first. */
  function ShipCells(a: Point, b: Point): (cells: seq<Point>)
    requires ShipShape(a, b)
  {
    if a.Column == b.Column then
      var top := if a.Row <= b.Row then a.Row else b.Row;
      [Point(top, a.Column), Point(top + 1, a.Column), Point(top + 2, a.Column)]
    else
      var left := if a.Column <= b.Column then a.Column else b.Column;
      [Point(a.Row, left), Point(a.Row, left + 1), Point(a.Row, left + 2)]
  }

  /** On two endpoints of a straight three-cell segment the engine writes exactly the three cells
      between them, smaller end first. */
  lemma SegmentCellsOfEndpoints(a: Point, b: Point)
    requires ShipShape(a, b)
    ensures SegmentCells([a, b]) == ShipCells(a, b)
  {
    var points := [a, b];
    assert Rows(points) == [a.Row, b.Row];
    assert Columns(points) == [a.Column, b.Column];
    var cells := SegmentCells(points);
    if a.Column == b.Column {
      var top := if a.Row <= b.Row then a.Row else b.Row;
      assert Minimum([a.Row, b.Row]) == top;
      assert Maximum([a.Row, b.Row]) == top + 2;
      assert VerticalCells(a.Column, top, top) == [Point(top, a.Column)];
      assert VerticalCells(a.Column, top, top + 1) == [Point(top, a.Column), Point(top + 1, a.Column)];
    } else {
      var left := if a.Column <= b.Column then a.Column else b.Column;
      assert Minimum([a.Column, b.Column]) == left;
      assert Maximum([a.Column, b.Column]) == left + 2;
      assert HorizontalCells(a.Row, left, left) == [Point(a.Row, left)];
      assert HorizontalCells(a.Row, left, left + 1) == [Point(a.Row, left), Point(a.Row, left + 1)];
    }
  }

  /** A validated location covers three distinct on-board cells running from its smaller end
      to its larger one, down a column or along a row. */
  lemma PlacementCellsShape(location: string)
    requires ValidateLocation(location)
    ensures WellFormedPlacement(location)
    ensures var a, b := Decode(location[0], location[1]), Decode(location[3], location[4]);
      && ShipShape(a, b)
      && PlacementCells(location) == ShipCells(a, b)
    ensures |PlacementCells(location)| == ShootsToSink
    ensures ValidatePointsRanges(PlacementCells(location))
    ensures NoDuplicates(PlacementCells(location))
  {
    ValidatedEndpoints(location);
    var a, b := Decode(location[0], location[1]), Decode(location[3], location[4]);
    SegmentCellsOfEndpoints(a, b);
    assert ValidatePointsRanges(PointsOf(location).value);
    assert InBoard(a) && InBoard(b);
    ShipCellsOnBoard(a, b);
  }

  /** The three cells between two on-board endpoints are distinct and on the board. */
  lemma ShipCellsOnBoard(a: Point, b: Point)
    requires ShipShape(a, b) && InBoard(a) && InBoard(b)
    ensures |ShipCells(a, b)| == ShootsToSink
    ensures ValidatePointsRanges(ShipCells(a, b))
    ensures NoDuplicates(ShipCells(a, b))
  {
  }

  method AddShipPosition(location: string, player: Player)
    requires ValidateLocation(location) && HasStandardBoard(player)
    modifies player`ShipPosition, player.Board
    ensures player.ShipPosition == old(player.ShipPosition) + PlacementCells(location)
    ensures forall r, c :: 0 <= r < BoardRows && 0 <= c < BoardColumns ==>
      player.Board[r, c] == if Point(r, c) in PlacementCells(location) then ShipChar else old(player.Board[r, c])
  {
    ValidatedEndpoints(location);
    var pointList := GetPointsFromLocation(location);
    var points := pointList.value;
    SegmentBounds(points);
    ghost var cells := PlacementCells(location);
    if points[0].Column == points[|points| - 1].Column {
      assert cells == VerticalCells(points[0].Column, Minimum(Rows(points)), Maximum(Rows(points)));
      CreateVerticalShip(player, points);
    }
    if points[0].Row == points[|points| - 1].Row {
      assert cells == HorizontalCells(points[0].Row, Minimum(Columns(points)), Maximum(Columns(points)));
      CreateHorizontalShip(player, points);
    }
  }

  /** The extreme rows and columns of on-board points are on the board. */
  lemma SegmentBounds(points: seq<Point>)
    requires |points| > 0 && ValidatePointsRanges(points)
    ensures 0 <= Minimum(Rows(points)) && Maximum(Rows(points)) < BoardRows
    ensures 0 <= Minimum(Columns(points)) && Maximum(Columns(points)) < BoardColumns
  {
    ExtremaAreElements(Rows(points));
    ExtremaAreElements(Columns(points));
  }

  // ---------------------------------------------------------------------------
  // Shots

  /** Whether a shot may be fired; `Failure` is the exception the source raises on a
      two-character input that starts with a space and ends with a digit. */
  function ValidateShootLocation(location: string, player: Player): Result<bool>
    reads player
  {
    if IsNullOrWhiteSpace(location) || |location| != 2 then Success(false)
    else if !TryParseDigit(location[1]).0 then Success(false)
    else
      match PointsOf(location)
      case Failure(e) => Failure(e)
      case Success(pointList) =>
        if !ValidatePointsRanges(pointList) then Success(false)
        else if pointList[0] in player.HitsGiven then Success(false)
        else Success(true)
  }

  /** The point a shot location names. */
  function ShotPoint(location: string): Point
    requires PointsOf(location).Success?
  {
    PointsOf(location).value[0]
  }

  /** The shot grammar: one on-board letter-digit pair. */
  predicate WellFormedShot(location: string) {
    |location| == 2 && IsBoardLetter(location[0]) && IsBoardDigit(location[1])
  }

  /** A shot is accepted exactly when it is one on-board letter-digit pair naming a point not
      fired at before; the source throws exactly on a space followed by a digit. */
  lemma ValidateShootLocationCharacterised(location: string, player: Player)
    ensures ValidateShootLocation(location, player).Failure? <==>
      |location| == 2 && location[0] == ' ' && '0' <= location[1] <= '9'
    ensures ValidateShootLocation(location, player) == Success(true) <==>
      WellFormedShot(location) && Decode(location[0], location[1]) !in player.HitsGiven
    ensures ValidateShootLocation(location, player) == Success(true) ==>
      PointsOf(location).Success? && ShotPoint(location) == Decode(location[0], location[1])
      && InBoard(ShotPoint(location))
  {
    if |location| == 2 && '0' <= location[1] <= '9' {
      if location[0] == ' ' {
        assert location == Join([[], location[1..]], ' ');
        SplitJoin([[], location[1..]], ' ');
        ParseTokensElements([[], location[1..]]);
      } else {
        assert location == Join([location], ' ');
        SplitJoin([location], ' ');
        ParseTokensElements([location]);
        assert PointsOf(location).value == [ParseToken(location)];
        ParseTokenInRange(location);
      }
    }
  }

  /** The shot input " 1" passes the length and digit checks, splits into an empty token and
      "1", and makes the decoder read past the end of the empty token. */
  lemma SpaceDigitShotThrows(player: Player)
    ensures ValidateShootLocation(" 1", player) == Failure(IndexOutOfRange)
  {
    ValidateShootLocationCharacterised(" 1", player);
  }

  /** The shot check with the decoder's exception turned into a rejection: what the prompt loop
      that asks again on `false` relies on. */
  function ValidateShootLocationGuarded(location: string, player: Player): bool
    reads player
  {
    if IsNullOrWhiteSpace(location) || |location| != 2 then false
    else if !TryParseDigit(location[1]).0 then false
    else if !AllTokensReadable(Split(location, ' ')) then false
    else
      var pointList := PointsOf(location).value;
      ValidatePointsRanges(pointList) && pointList[0] !in player.HitsGiven
  }

  /** The guarded check never faults, accepts exactly the on-board letter-digit pairs not fired at
      before, and agrees with the engine's check wherever that one returns. */
  lemma ValidateShootLocationGuardedCharacterised(location: string, player: Player)
    ensures ValidateShootLocationGuarded(location, player) <==>
      WellFormedShot(location) && Decode(location[0], location[1]) !in player.HitsGiven
    ensures ValidateShootLocationGuarded(location, player) <==>
      ValidateShootLocation(location, player) == Success(true)
    ensures ValidateShootLocation(location, player).Success? ==>
      ValidateShootLocation(location, player).value == ValidateShootLocationGuarded(location, player)
    ensures !ValidateShootLocationGuarded(" 1", player)
  {
    ValidateShootLocationCharacterised(location, player);
    ValidateShootLocationCharacterised(" 1", player);
    ParseTokensElements(Split(location, ' '));
    ParseTokensElements(Split(" 1", ' '));
  }

  /** The shooter has not fired twice at one point, and the target's counter holds the number of
      the shooter's shots that landed on the target's ship. */
  ghost predicate Consistent(shooter: Player, target: Player)
    reads shooter, target
  {
    NoDuplicates(shooter.HitsGiven)
    && target.SuccessfulShotsReceived == HitCount(shooter.HitsGiven, target.ShipPosition)
  }

  method SetShoot(location: string, curretPlayer: Player, nextPlayer: Player)
    requires PointsOf(location).Success?
    requires HasStandardBoard(nextPlayer)
    requires ShotPoint(location) in nextPlayer.ShipPosition || InBoard(ShotPoint(location))
    modifies curretPlayer`HitsGiven, nextPlayer`SuccessfulShotsReceived, nextPlayer.Board
    ensures curretPlayer.HitsGiven == old(curretPlayer.HitsGiven) + [ShotPoint(location)]
    ensures ShotPoint(location) in nextPlayer.ShipPosition ==>
      nextPlayer.SuccessfulShotsReceived == old(nextPlayer.SuccessfulShotsReceived) + 1
      && unchanged(nextPlayer.Board)
    ensures ShotPoint(location) !in nextPlayer.ShipPosition ==>
      var p := ShotPoint(location);
      nextPlayer.SuccessfulShotsReceived == old(nextPlayer.SuccessfulShotsReceived)
      && forall r, c :: 0 <= r < BoardRows && 0 <= c < BoardColumns ==>
           nextPlayer.Board[r, c] == if r == p.Row && c == p.Column then HitChar else old(nextPlayer.Board[r, c])
    ensures curretPlayer != nextPlayer && old(Consistent(curretPlayer, nextPlayer))
      && old(ValidateShootLocationGuarded(location, curretPlayer))
      ==> Consistent(curretPlayer, nextPlayer)
  {
    ghost var hits := curretPlayer.HitsGiven;
    ghost var accepted := ValidateShootLocationGuarded(location, curretPlayer);
    ValidateShootLocationGuardedCharacterised(location, curretPlayer);
    var pointList := GetPointsFromLocation(location);
    var point := pointList.value[0];
    curretPlayer.HitsGiven := curretPlayer.HitsGiven + [Point(point.Row, point.Column)];
    if point in nextPlayer.ShipPosition {
      nextPlayer.SuccessfulShotsReceived := nextPlayer.SuccessfulShotsReceived + 1;
    } else {
      nextPlayer.Board[point.Row, point.Column] := HitChar;
    }
    if accepted && NoDuplicates(hits) {
      ShotKeepsAccounting(hits, nextPlayer.ShipPosition, point);
    }
  }

  // ---------------------------------------------------------------------------
  // Win check

  predicate ValidateShipSink(nextPlayer: Player)
    reads nextPlayer
  {
    nextPlayer.SuccessfulShotsReceived == ShootsToSink
  }

  /** Against a placed three-cell ship, with every shot validated, the counter stays within
      0..3 and the ship counts as sunk exactly when each of its cells has been fired at. */
  lemma SinkMeansEveryCellHit(shooter: Player, target: Player)
    requires Consistent(shooter, target)
    requires |target.ShipPosition| == ShootsToSink && NoDuplicates(target.ShipPosition)
    ensures 0 <= target.SuccessfulShotsReceived <= ShootsToSink
    ensures ValidateShipSink(target) <==>
      forall i :: 0 <= i < |target.ShipPosition| ==> target.ShipPosition[i] in shooter.HitsGiven
  {
    SunkIffEveryCellHit(shooter.HitsGiven, target.ShipPosition);
  }
}
