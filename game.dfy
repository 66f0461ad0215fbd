/**
 * One round of the point-finding game: two distinct target points are drawn
 * at random from the visible integer range, and the player clicks on the
 * canvas until both have been found. A click finds the first target not yet
 * found that lies within the click tolerance.
 *
 * The random source is a parameter: a sequence of draws, each a pair of
 * samples in [0, 1) that yields one candidate point.
 */
module LineGame {
  import opened Geometry

  /** A target the player has to find, with the flag that says whether it was found. */
  datatype Target = Target(x: int, y: int, found: bool)

  /** Two samples of the random source, for the x and the y of one candidate point. */
  datatype Draw = Draw(rx: real, ry: real)

  /** What a click does: nothing, or find the target at `index`; `allFound` reports that every target is now found. */
  datatype Outcome = Miss | Hit(index: nat, allFound: bool)

  predicate IsSample(r: real) {
    0.0 <= r < 1.0
  }

  predicate ValidDraw(d: Draw) {
    IsSample(d.rx) && IsSample(d.ry)
  }

  /** The candidate point a draw yields: one random integer per axis. */
  function Candidate(d: Draw): (p: (int, int))
    requires ValidDraw(d)
    ensures InRange(p.0) && InRange(p.1)
  {
    (RandInt(d.rx, CoordMin, CoordMax), RandInt(d.ry, CoordMin, CoordMax))
  }

  /**
   * Draws on which the rejection loop of NewGame terminates: every sample is
   * in [0, 1) and some draw after the first yields a point other than the
   * first draw's.
   */
  predicate EventuallyDistinct(draws: seq<Draw>) {
    && |draws| > 0
    && (forall k :: 0 <= k < |draws| ==> ValidDraw(draws[k]))
    && exists k :: 0 < k < |draws| && Candidate(draws[k]) != Candidate(draws[0])
  }

  /** Index of the first draw at or after `from` whose point differs from the first draw's. */
  function FirstDifferent(draws: seq<Draw>, from: nat): (j: nat)
    requires EventuallyDistinct(draws) && 0 < from
    requires exists k :: from <= k < |draws| && Candidate(draws[k]) != Candidate(draws[0])
    ensures from <= j < |draws| && Candidate(draws[j]) != Candidate(draws[0])
    ensures forall k :: from <= k < j ==> Candidate(draws[k]) == Candidate(draws[0])
    decreases |draws| - from
  {
    if Candidate(draws[from]) != Candidate(draws[0]) then from else FirstDifferent(draws, from + 1)
  }

  /** The board is well formed: all coordinates in the visible range. */
  predicate OnBoard(points: seq<Target>) {
    forall k :: 0 <= k < |points| ==> InRange(points[k].x) && InRange(points[k].y)
  }

  /** No two targets share both coordinates. */
  predicate Distinct(points: seq<Target>) {
    forall i, j :: 0 <= i < j < |points| ==> points[i].x != points[j].x || points[i].y != points[j].y
  }

  predicate NoneFound(points: seq<Target>) {
    forall k :: 0 <= k < |points| ==> !points[k].found
  }

  predicate AllFound(points: seq<Target>) {
    forall k :: 0 <= k < |points| ==> points[k].found
  }

  /** Whether a point with these coordinates is already on the board. */
  predicate Occupied(points: seq<Target>, x: int, y: int) {
    exists k :: 0 <= k < |points| && points[k].x == x && points[k].y == y
  }

  /**
   * The board a new game sets up from the draws: the first draw's point,
   * then the first later point that differs from it, both not found.
   */
  function Generated(draws: seq<Draw>): (points: seq<Target>)
    requires EventuallyDistinct(draws)
    ensures |points| == 2 && Distinct(points) && OnBoard(points) && NoneFound(points)
  {
    var (x0, y0) := Candidate(draws[0]);
    var (x1, y1) := Candidate(draws[FirstDifferent(draws, 1)]);
    [Target(x0, y0, false), Target(x1, y1, false)]
  }

  /** A target the click at (gx, gy) catches: not yet found and within tolerance. */
  predicate Catches(t: Target, gx: real, gy: real) {
    !t.found && WithinTolerance(t.x as real, t.y as real, gx, gy)
  }

  /** The board after the target at `idx` is found. */
  function Mark(points: seq<Target>, idx: nat): (marked: seq<Target>)
    requires idx < |points| && !points[idx].found
    ensures |marked| == |points| && marked[idx].found
    ensures forall k :: 0 <= k < |points| ==>
              marked[k].x == points[k].x && marked[k].y == points[k].y &&
              (k != idx ==> marked[k].found == points[k].found)
  {
    points[idx := points[idx].(found := true)]
  }

  /**
   * Index of the first target the click at (gx, gy) catches, or -1 when it
   * catches none.
   */
  method FindUnfound(points: seq<Target>, gx: real, gy: real) returns (idx: int)
    ensures -1 <= idx < |points|
    ensures idx == -1 <==> forall k :: 0 <= k < |points| ==> !Catches(points[k], gx, gy)
    ensures idx != -1 ==> Catches(points[idx], gx, gy)
    ensures forall k :: 0 <= k < idx ==> !Catches(points[k], gx, gy)
  {
    var i := 0;
    while i < |points|
      invariant 0 <= i <= |points|
      invariant forall k :: 0 <= k < i ==> !Catches(points[k], gx, gy)
    {
      if Catches(points[i], gx, gy) {
        return i;
      }
      i := i + 1;
    }
    return -1;
  }

  /** Number of targets found so far. */
  function FoundCount(points: seq<Target>): (n: nat)
    ensures n <= |points|
  {
    if points == [] then 0 else FoundCount(points[..|points| - 1]) + (if points[|points| - 1].found then 1 else 0)
  }

  /** Finding a target raises the number of found targets by exactly one. */
  lemma {:induction false} MarkCountsOne(points: seq<Target>, idx: nat)
    requires idx < |points| && !points[idx].found
    ensures FoundCount(Mark(points, idx)) == FoundCount(points) + 1
  {
    var last := |points| - 1;
    var marked := Mark(points, idx);
    if idx == last {
      assert marked[..last] == points[..last];
    } else {
      assert marked[..last] == Mark(points[..last], idx);
      MarkCountsOne(points[..last], idx);
    }
  }

  /** Every target is found exactly when the count of found targets is the number of targets. */
  lemma {:induction false} AllFoundCount(points: seq<Target>)
    ensures AllFound(points) <==> FoundCount(points) == |points|
  {
    if points != [] {
      var last := |points| - 1;
      AllFoundCount(points[..last]);
      assert AllFound(points) <==> AllFound(points[..last]) && points[last].found;
    }
  }

  /**
   * On a board of distinct targets a click catches at most one target, so the
   * first target caught is the only one.
   */
  lemma CatchIsUnique(points: seq<Target>, gx: real, gy: real, i: nat, j: nat)
    requires Distinct(points)
    requires i < |points| && j < |points|
    requires Catches(points[i], gx, gy) && Catches(points[j], gx, gy)
    ensures i == j
  {
    ToleranceSeparatesGridPoints(points[i].x, points[i].y, points[j].x, points[j].y, gx, gy);
  }

  /**
   * Worked examples for a target at (2, 2): a click drawn at graph point
   * (2.2, 2.1) catches it, one at (2.4, 2.1) lies 0.41 units away and does not.
   */
  lemma ClickExamples()
    ensures CanvasToGraph(338.0, 166.0) == GraphPoint(2.2, 2.1)
    ensures Catches(Target(2, 2, false), 2.2, 2.1)
    ensures CanvasToGraph(346.0, 166.0) == GraphPoint(2.4, 2.1)
    ensures !Catches(Target(2, 2, false), 2.4, 2.1)
    ensures !Catches(Target(2, 2, true), 2.0, 2.0)
  {
  }

  /** The game's state: the targets of the current round. */
  class Game {
    var points: seq<Target>

    /** The targets are distinct points of the visible range. */
    ghost predicate Valid()
      reads this
    {
      Distinct(points) && OnBoard(points)
    }

    /** Before the first round there are no targets. */
    constructor ()
      ensures points == [] && Valid()
    {
      points := [];
    }

    /**
     * Starts a round: draws candidate points until two distinct ones have
     * been kept; a candidate already on the board is rejected.
     */
    method NewGame(draws: seq<Draw>)
      requires EventuallyDistinct(draws)
      modifies this
      ensures points == Generated(draws)
      ensures Valid() && |points| == 2 && NoneFound(points)
    {
      points := [];
      var i := 0;
      while |points| < 2
        invariant 0 <= i <= |draws|
        invariant |points| <= 2
        invariant |points| == 0 <==> i == 0
        invariant |points| >= 1 ==> points[0] == Target(Candidate(draws[0]).0, Candidate(draws[0]).1, false)
        invariant |points| == 1 ==> i <= FirstDifferent(draws, 1)
        invariant |points| == 2 ==> points == Generated(draws)
        decreases |draws| - i
      {
        var x := RandInt(draws[i].rx, CoordMin, CoordMax);
        var y := RandInt(draws[i].ry, CoordMin, CoordMax);
        if !Occupied(points, x, y) {
          points := points + [Target(x, y, false)];
        }
        i := i + 1;
      }
    }

    /**
     * Handles a click at canvas position (canvasX, canvasY): the first target
     * not yet found within tolerance of the click is marked found; otherwise
     * nothing changes. On a valid board the target found is the only one the
     * click catches.
     */
    method Click(canvasX: real, canvasY: real) returns (outcome: Outcome)
      modifies this
      ensures var g := CanvasToGraph(canvasX, canvasY);
              outcome.Miss? <==> forall k :: 0 <= k < |old(points)| ==> !Catches(old(points)[k], g.graphX, g.graphY)
      ensures outcome.Miss? ==> points == old(points)
      ensures outcome.Hit? ==>
                var g := CanvasToGraph(canvasX, canvasY);
                && outcome.index < |old(points)|
                && Catches(old(points)[outcome.index], g.graphX, g.graphY)
                && (forall k :: 0 <= k < outcome.index ==> !Catches(old(points)[k], g.graphX, g.graphY))
                && points == Mark(old(points), outcome.index)
                && FoundCount(points) == FoundCount(old(points)) + 1
                && (outcome.allFound <==> AllFound(points))
      ensures old(Valid()) && outcome.Hit? ==>
                var g := CanvasToGraph(canvasX, canvasY);
                forall k :: 0 <= k < |old(points)| && k != outcome.index ==> !Catches(old(points)[k], g.graphX, g.graphY)
      ensures old(AllFound(points)) ==> outcome.Miss?
      ensures old(Valid()) ==> Valid()
    {
      var g := CanvasToGraph(canvasX, canvasY);
      var idx := FindUnfound(points, g.graphX, g.graphY);
      if idx != -1 {
        if Valid() {
          forall k | 0 <= k < |points| && k != idx
            ensures !Catches(points[k], g.graphX, g.graphY)
          {
            if Catches(points[k], g.graphX, g.graphY) {
              CatchIsUnique(points, g.graphX, g.graphY, k, idx);
            }
          }
        }
        MarkCountsOne(points, idx);
        points := Mark(points, idx);
        outcome := Hit(idx, AllFound(points));
      } else {
        outcome := Miss;
      }
    }
  }
}
