# Battleship rules engine in Dafny

A model of the rules engine of a two-player console Battleship game. Each player hides one
straight three-cell ship on an 8×8 board (columns `A`–`H`, rows `1`–`8`). Players then fire
single shots in turn until one ship has taken three hits.

The engine (`BattleshipService`) covers:

- building empty boards and the two players;
- decoding the coordinate strings the players type (`"A1 C1"` to place a ship, `"B5"` to shoot);
- validating placements and shots;
- writing a ship onto its owner's board;
- applying a shot;
- the sunk check.

`Player` is a class whose fields the engine updates in place.

Files:

- `strings.dfy` (module `Strings`): the .NET string functions the engine relies on. These are `string.IsNullOrWhiteSpace`, `string.Split(char)` and `int.TryParse` on a one-character string. Proved here: splitting and joining are inverse, and tokens never contain the separator.
- `player.dfy` (module `Model`): the `Point` value and the `Player` class.
- `shot_accounting.dfy` (module `ShotAccounting`): counting lemmas over shot lists. Their main result: with no repeated shots, the hit counter equals the number of ship cells fired at.
- `battleship_service.dfy` (module `BattleshipService`): the constants, the engine methods and functions, and the properties proved of them.
- `service_cases.dfy` (module `ServiceCases`): the non-null inputs of the repository's unit tests for `ValidateLocation`, `ValidateShootLocation` and `ValidateShipSink`, proved to give the expected answers.

How the source maps to the model:

- The board is an `array2<char>`, filled in place by `CreateBoard`.
- `ShipPosition` and `HitsGiven` are `seq<Point>` fields that the methods reassign.
- `CreateVerticalShip`, `CreateHorizontalShip` and `GetPointsFromLocation` keep the source's loops. Each is proved against a specification function: `VerticalCells`, `HorizontalCells` or `PointsOf`.
- The functions that only compute, such as the validators and the decoder, become Dafny functions.
- The source can raise an `IndexOutOfRangeException` while decoding. It happens when a split token is shorter than two characters. The model returns that as `Failure(IndexOutOfRange)` of a `Result`.
- The engine keeps one property over a game, the `Consistent` predicate:
  - the shooter never fires at the same point twice;
  - the target's `SuccessfulShotsReceived` equals the number of the shooter's shots that landed on the target's ship.

  `SetShoot` preserves `Consistent` for every accepted shot. `SinkMeansEveryCellHit` then shows that "three hits received" means "every cell of the ship fired at".

The prompt loops of `Program.cs` (lines 49-56 and 72-79) ask again whenever a validator returns false. On the shot input `" 1"`, however, `ValidateShootLocation` throws instead, and the catch in `Main` (`Program.cs`:18-31) ends the game (see Findings). The model follows the code.

## Model

| member | source | states |
|---|---|---|
| Strings.TryParseDigit | Battleship/BattleshipService.cs:127 | stand-in for the library call `int.TryParse` on one character, not a proved property: the call succeeds exactly on ASCII `0`–`9` with that digit's value, and leaves 0 on failure |
| Strings.SplitTokens | Battleship/BattleshipService.cs:48 | no token of a split holds the separator, and there is one token more than there are separators |
| Strings.JoinSplit | Battleship/BattleshipService.cs:62 | joining the tokens of a split with the separator gives back the original string |
| Strings.SplitJoin | Battleship/BattleshipService.cs:62 | splitting a join of separator-free tokens gives back the tokens |
| Model.Player.constructor | Battleship/Model/Player.cs:7-21 | a new player has the given id, board and turn flag, empty ship and shot lists, and a zero hit counter |
| BattleshipService.CreateBoard | Battleship/BattleshipService.cs:30-40 | returns a fresh 8×8 board in which every cell holds `-` |
| BattleshipService.GetPlayers | Battleship/BattleshipService.cs:22-28 | two fresh, distinct players with distinct fresh empty boards; ids 1 and 2; player 1 starts with the turn |
| BattleshipService.FindIndexIgnoreCaseFirstMatch | Battleship/BattleshipService.cs:163 | the case-insensitive search returns the first matching position, or -1 exactly when no letter matches |
| BattleshipService.GetPositionFromLetterIsLetterIndex | Battleship/BattleshipService.cs:161-164 | a letter maps to its alphabet position (`A`/`a` to 0 … `H`/`h` to 7); the result is a board column exactly for `A`–`H` in either case |
| BattleshipService.GetPointsFromLocation | Battleship/BattleshipService.cs:60-72 | the loop yields one point per space-separated token (column from the letter, row from the digit minus one), or the index fault when some token is shorter than two characters |
| BattleshipService.ParseTokenInRange | Battleship/BattleshipService.cs:166-171 | `ValidatePointsRanges` (the model of lines 166-171) holds when every point is `InBoard`; a decoded token is `InBoard` exactly when its letter is `A`–`H` (either case) and its digit is `1`–`8`; the point is then the one those two characters name |
| BattleshipService.ValidDistance | Battleship/BattleshipService.cs:86-89 | true exactly when the two numbers differ by 2 in either direction |
| BattleshipService.ValidateLocationCharacterised | Battleship/BattleshipService.cs:43-57 | `ValidateLocation` (the model of lines 43-57, with `ValidateShipSize` for lines 74-84) accepts a placement exactly when it is two on-board letter-digit pairs separated by one space, and the two points share a row or a column and lie 2 apart |
| BattleshipService.ValidatedEndpoints | Battleship/BattleshipService.cs:43-84 | an accepted placement decodes without fault to exactly its two endpoints; both are on the board and bound a straight three-cell segment |
| BattleshipService.PlacementValidates | Battleship/BattleshipService.cs:43-57 | every well-formed straight placement of length three is accepted (the converse direction) |
| BattleshipService.ExtremaAreElements | Battleship/BattleshipService.cs:104 | the values LINQ `Min` and `Max` return are elements of the list (that they bound every element is the contract of `Minimum` and `Maximum`) |
| BattleshipService.InVerticalCells | Battleship/BattleshipService.cs:104-107 | a cell lies in a vertical run exactly when it has the run's column and a row between the run's ends |
| BattleshipService.CreateVerticalShip | Battleship/BattleshipService.cs:101-109 | appends the cells from the least to the greatest row of the first point's column, top to bottom; marks exactly those cells `S`; leaves the rest of the board unchanged |
| BattleshipService.InHorizontalCells | Battleship/BattleshipService.cs:114-117 | a cell lies in a horizontal run exactly when it has the run's row and a column between the run's ends |
| BattleshipService.CreateHorizontalShip | Battleship/BattleshipService.cs:111-119 | appends the cells from the least to the greatest column of the first point's row, left to right; marks exactly those cells `S`; leaves the rest of the board unchanged |
| BattleshipService.AddShipPosition | Battleship/BattleshipService.cs:91-99 | on an accepted placement, the ship list grows by the placement's cells and exactly those board cells become `S` |
| BattleshipService.SegmentCellsOfEndpoints | Battleship/BattleshipService.cs:94-98 | for the two endpoints of a segment, the engine writes exactly the three cells between them, smaller end first, whichever end was typed first |
| BattleshipService.PlacementCellsShape | Battleship/BattleshipService.cs:91-119 | an accepted placement covers exactly three distinct on-board cells |
| BattleshipService.ValidateShootLocationCharacterised | Battleship/BattleshipService.cs:122-141 | under `ValidateShootLocation` (the model of lines 122-141), a shot is accepted exactly when it is one on-board letter-digit pair not already in the shooter's `HitsGiven`; the check faults exactly on a space followed by a digit |
| BattleshipService.SpaceDigitShotThrows | Battleship/BattleshipService.cs:127-130 | the shot check faults on the input `" 1"` |
| BattleshipService.ValidateShootLocationGuardedCharacterised | Battleship/BattleshipService.cs:122-141 | the check with the fault turned into a rejection never faults; it accepts exactly the on-board letter-digit pairs not fired at before; it agrees with the engine's check wherever that one returns; it rejects `" 1"` |
| BattleshipService.SetShoot | Battleship/BattleshipService.cs:143-153 | records the shot in the shooter's `HitsGiven`; a hit adds one to the target's counter and leaves its board alone; a miss marks exactly that cell `X`; an accepted shot by one player at another preserves `Consistent` |
| ShotAccounting.ShotKeepsAccounting | Battleship/BattleshipService.cs:146-150 | the accounting step that `SetShoot`'s `Consistent` postcondition uses: a shot not fired before keeps the shot list free of repeats, and it adds one to the hit count exactly when it lands on the ship |
| ShotAccounting.SunkIffEveryCellHit | Battleship/BattleshipService.cs:155-158 | with no repeated shots and no repeated ship cells, the hit count is at most the ship's size, and it reaches that size exactly when every ship cell was fired at |
| BattleshipService.SinkMeansEveryCellHit | Battleship/BattleshipService.cs:155-158 | `ValidateShipSink` (the model of lines 155-158): for a consistent pair of players and a three-cell ship, the counter stays in 0..3, and the ship sinks exactly when each of its cells has been fired at |
| ServiceCases.AcceptedPlacements | Battleship.Tests/BattleshipServiceTests.cs:57-67 | `"A1 C1"`, `"A1 A3"`, `"a1 a3"`, `"F8 H8"` and `"H6 H8"` are accepted |
| ServiceCases.MalformedPlacements | Battleship.Tests/BattleshipServiceTests.cs:20-41 | empty, whitespace, one-token, three-token and non-coordinate placements are rejected |
| ServiceCases.OutOfRangePlacements | Battleship.Tests/BattleshipServiceTests.cs:43-55 | off-board, over-long, too far apart, too close and diagonal placements are rejected |
| ServiceCases.ReversedPlacementCells | Battleship/BattleshipService.cs:101-119 | `"C2 A2"` covers A2, B2, C2 in that order |
| ServiceCases.SinkCases | Battleship.Tests/BattleshipServiceTests.cs:120-133 | the sunk check is false at zero hits received and true at three |
| ServiceCases.ShotCases | Battleship.Tests/BattleshipServiceTests.cs:71-118 | against a player who has fired at A1: empty, malformed, off-board and repeated shots are rejected; `"B1"` is accepted |

## Left out

- `Program.cs` (console prompts, the turn loop, `AssignBattleRound`, printing the boards), `Bindings.cs` (dependency injection) and `IBattleshipService.cs` (the interface) are not part of this model. They are I/O and wiring around the engine.
- `Point.cs` is not part of this model. `Point` is modelled as a value with `Row` and `Column`, because the engine only ever compares points field by field.
- The `Console.WriteLine` on a repeated shot is left out because it is console output. Only the `false` result is modelled.
- `null` strings are not modelled, because a Dafny string is a value. In both validators a null takes the same branch as the empty string.
- A Dafny `string` is a sequence of Unicode scalar values, while a C# string is a sequence of UTF-16 code units. So the length checks at `BattleshipService.cs`:49 and 124 count a character outside the Basic Multilingual Plane once in the model and twice in the source. No accepted or faulting input changes: such a character is neither a letter `A`–`H` nor a digit, so each input that holds one is rejected by both.
- Strings.IsWhiteSpace: covers ASCII 9–13, space, U+0085 and U+00A0, not every Unicode space separator.
- BattleshipService.ToUpper: culture-sensitive case folding is modelled as ASCII upper-casing. This is enough for the letters `A`–`H`.
- The `ValidLetters`, `BoardRows` and `BoardColumns` properties are modelled as constants. The source builds a fresh array on every read, which nothing can observe.
- BattleshipService.AddShipPosition: requires an accepted placement, as its only caller guarantees. On other input the source may throw or write outside the ship, and that is not modelled.
- BattleshipService.SetShoot: requires the location to decode, and the shot point to be on the board or on the target's ship. This is exactly what keeps the source from throwing, so its exception paths are not modelled.
- BattleshipService.SetShoot: the game invariant is stated only for two distinct players.
- A hit does not mark the target's board and a miss marks it `X`. The model keeps this as the source has it.
- Model.Player.constructor: takes the id, board and turn that the source sets in an object initializer. The state before the initializer runs, with a null board, is not modelled.

## Findings

| source | as written | input that shows it | evidently intended | confidence | as-written member | corrected member |
|---|---|---|---|---|---|---|
| Battleship/BattleshipService.cs:122-141 | `ValidateShootLocation` checks the length and the digit, then decodes the input. A leading space splits it into an empty token and the digit, and decoding the empty token reads index 1 and throws. The only handler is the one around the whole game in `Program.cs`, so the game ends with its error message. | `" 1"` | reject the input (`false`), so the player is asked again | not executed | BattleshipService.SpaceDigitShotThrows | BattleshipService.ValidateShootLocationGuardedCharacterised |
