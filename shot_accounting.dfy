/** Counting hits: how the shooter's shot list relates to the target's hit counter. */
module ShotAccounting {
  import opened Model

  predicate NoDuplicates(s: seq<Point>) {
    forall i, j :: 0 <= i < j < |s| ==> s[i] != s[j]
  }

  /** The number of shots in `hits` that land on a cell of `ship`, counted shot by shot
      in firing order: what the target's counter holds after the shots in `hits`. */
  function HitCount(hits: seq<Point>, ship: seq<Point>): nat {
    if hits == [] then 0
    else HitCount(hits[..|hits| - 1], ship) + (if hits[|hits| - 1] in ship then 1 else 0)
  }

  /** The number of cells of `ship` that `hits` has reached at least once. */
  function CellsHit(ship: seq<Point>, hits: seq<Point>): nat {
    if ship == [] then 0
    else (if ship[0] in hits then 1 else 0) + CellsHit(ship[1..], hits)
  }

  /** A shot raises the count of reached cells exactly when it reaches a new cell of the ship. */
  lemma {:induction false} CellsHitAfterShot(ship: seq<Point>, hits: seq<Point>, p: Point)
    requires NoDuplicates(ship)
    ensures CellsHit(ship, hits + [p]) == CellsHit(ship, hits) + (if p in ship && p !in hits then 1 else 0)
  {
    if ship != [] {
      assert NoDuplicates(ship[1..]) by {
        forall i, j | 0 <= i < j < |ship[1..]| ensures ship[1..][i] != ship[1..][j] {
          assert ship[1..][i] == ship[i + 1] && ship[1..][j] == ship[j + 1];
        }
      }
      CellsHitAfterShot(ship[1..], hits, p);
      if ship[0] == p {
        assert p !in ship[1..] by {
          forall k | 0 <= k < |ship[1..]| ensures ship[1..][k] != p {
            assert ship[1..][k] == ship[k + 1];
          }
        }
      } else {
        assert p in ship <==> p in ship[1..] by {
          assert ship == [ship[0]] + ship[1..];
        }
      }
    }
  }

  /** Without repeated shots and on a ship without repeated cells, counting shots that hit
      and counting cells that were hit agree. */
  lemma {:induction false} HitCountIsCellsHit(hits: seq<Point>, ship: seq<Point>)
    requires NoDuplicates(hits) && NoDuplicates(ship)
    ensures HitCount(hits, ship) == CellsHit(ship, hits)
  {
    if hits == [] {
      CellsHitNone(ship);
    } else {
      var prefix, p := hits[..|hits| - 1], hits[|hits| - 1];
      assert hits == prefix + [p];
      assert NoDuplicates(prefix);
      assert p !in prefix by {
        forall k | 0 <= k < |prefix| ensures prefix[k] != p {
          assert prefix[k] == hits[k];
        }
      }
      HitCountIsCellsHit(prefix, ship);
      CellsHitAfterShot(ship, prefix, p);
    }
  }

  /** No cell is reached when nothing has been fired. */
  lemma {:induction false} CellsHitNone(ship: seq<Point>)
    ensures CellsHit(ship, []) == 0
  {
    if ship != [] {
      CellsHitNone(ship[1..]);
    }
  }

  /** At most every cell is reached, and every cell is reached exactly when the count is full. */
  lemma {:induction false} CellsHitBound(ship: seq<Point>, hits: seq<Point>)
    ensures CellsHit(ship, hits) <= |ship|
    ensures CellsHit(ship, hits) == |ship| <==> forall i :: 0 <= i < |ship| ==> ship[i] in hits
  {
    if ship != [] {
      CellsHitBound(ship[1..], hits);
      if forall i :: 0 <= i < |ship| ==> ship[i] in hits {
        assert forall i :: 0 <= i < |ship[1..]| ==> ship[1..][i] == ship[i + 1];
      } else if ship[0] in hits {
        var i :| 0 <= i < |ship| && ship[i] !in hits;
        assert ship[1..][i - 1] == ship[i];
      }
    }
  }

  /** With no repeated shots against a ship without repeated cells, the hit count never
      exceeds the ship's size and reaches it exactly when every cell of the ship was fired at. */
  lemma SunkIffEveryCellHit(hits: seq<Point>, ship: seq<Point>)
    requires NoDuplicates(hits) && NoDuplicates(ship)
    ensures HitCount(hits, ship) <= |ship|
    ensures HitCount(hits, ship) == |ship| <==> forall i :: 0 <= i < |ship| ==> ship[i] in hits
  {
    HitCountIsCellsHit(hits, ship);
    CellsHitBound(ship, hits);
  }

  /** A new shot keeps the shot list free of repeats, and raises the hit count by one exactly
      when it lands on the ship. */
  lemma ShotKeepsAccounting(hits: seq<Point>, ship: seq<Point>, p: Point)
    requires NoDuplicates(hits) && p !in hits
    ensures NoDuplicates(hits + [p])
    ensures HitCount(hits + [p], ship) == HitCount(hits, ship) + (if p in ship then 1 else 0)
  {
    assert (hits + [p])[..|hits + [p]| - 1] == hits;
  }
}
