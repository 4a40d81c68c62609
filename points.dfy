// The MotoGP points table for finishing positions 1 to 15. The repository
// carries three identical copies of it: `qPoints` in routes/scrapeMotoGP.js
// and `getMotoGPPoints` in both Supabase scrapers; this module is the one
// definition all three models use.
module Points {

  const Table: seq<nat> := [25, 20, 16, 13, 11, 10, 9, 8, 7, 6, 5, 4, 3, 2, 1]

  /** Points for `position`; any position outside 1..15 earns nothing. */
  function MotoGPPoints(position: int): (p: nat)
    ensures 1 <= position <= 15 <==> p > 0
    ensures position == 1 ==> p == 25
    ensures position == 15 ==> p == 1
  {
    if 1 <= position <= |Table| then Table[position - 1] else 0
  }

  /** A better position never earns fewer points: the table strictly decreases over 1..15. */
  lemma {:induction false} PointsStrictlyDecreasing(a: int, b: int)
    requires 1 <= a < b <= 15
    ensures MotoGPPoints(a) > MotoGPPoints(b)
    decreases b - a
  {
    if b > a + 1 {
      PointsStrictlyDecreasing(a + 1, b);
    }
  }

  /** Points never increase with position, over every integer position. */
  lemma PointsNonIncreasing(a: int, b: int)
    requires a <= b && 1 <= a
    ensures MotoGPPoints(a) >= MotoGPPoints(b)
  {
    if a < b <= 15 {
      PointsStrictlyDecreasing(a, b);
    }
  }
}
