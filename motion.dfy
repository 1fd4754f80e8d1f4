/**
 * Branch selection of moveMouse and what each branch does at the time of
 * the call. Doubles are modelled as exact reals; the animated branch's
 * trajectory, which runs on another thread against the wall clock, is not
 * modelled.
 */
module Motion {
  import opened Wrappers
  import opened InputEvents

  datatype Point = Point(x: int, y: int)

  /** The CompletableFuture moveMouse returns: completed with a Boolean (None for null), or still animating. */
  datatype MoveFuture = Completed(value: Option<bool>) | Animating

  /** The branches of moveMouse. */
  datatype MoveBranch = NoRobot | Instant | ShortMove | Animated

  /** The squared Euclidean distance from start to (x, y). */
  function DistanceSquared(start: Point, x: int, y: int): (d: int)
    ensures d >= 0
    ensures d == 0 <==> start == Point(x, y)
  {
    (x - start.x) * (x - start.x) + (y - start.y) * (y - start.y)
  }

  /**
   * Whether the move needs under 2 ms at this speed, squared so that no
   * square root is needed: 10^6 * dist^2 < 4 * speed^2 * diagonal^2.
   */
  predicate IsShortMove(start: Point, x: int, y: int, speed: real, width: int, height: int)
  {
    1000000.0 * DistanceSquared(start, x, y) as real < 4.0 * speed * speed * (width * width + height * height) as real
  }

  /** Division by a positive rate compares like multiplication by it. */
  lemma BelowQuotient(a: real, p: real, c: real)
    requires p > 0.0
    ensures a / p < c <==> a < c * p
  {
  }

  /** Squaring is strictly monotone on non-negative reals. */
  lemma SquareMonotone(a: real, b: real)
    requires a >= 0.0 && b > 0.0
    ensures a < b <==> a * a < b * b
  {
    if a < b {
      calc {
        a * a;
      <= a * b;
      < b * b;
      }
    } else {
      calc {
        a * a;
      >= a * b;
      >= b * b;
      }
    }
  }

  /** The squared bound of 2 ms at speed * diagonal / 1000 pixels per ms. */
  lemma SquaredBound(speed: real, diagonal: real)
    ensures var bound := 2.0 * (speed * diagonal / 1000.0);
      1000000.0 * (bound * bound) == 4.0 * speed * speed * (diagonal * diagonal)
  {
  }

  /**
   * IsShortMove is the source's msNeeded < 2, for msNeeded = dist / pixelsPerMS
   * and pixelsPerMS = speed * diagonal / 1000, whenever the diagonal is positive.
   */
  lemma ShortMoveMeansUnderTwoMs(start: Point, x: int, y: int, speed: real, width: int, height: int, dist: real, diagonal: real)
    requires speed > 0.0 && dist >= 0.0 && diagonal > 0.0
    requires dist * dist == DistanceSquared(start, x, y) as real
    requires diagonal * diagonal == (width * width + height * height) as real
    ensures IsShortMove(start, x, y, speed, width, height) <==> dist / (speed * diagonal / 1000.0) < 2.0
  {
    var perMs := speed * diagonal / 1000.0;
    assert perMs > 0.0;
    var bound := 2.0 * perMs;
    BelowQuotient(dist, perMs, 2.0);
    SquareMonotone(dist, bound);
    SquaredBound(speed, diagonal);
  }

  /** The branch a call takes, in the order the source tests them. */
  function SelectBranch(robotPresent: bool, speed: real, start: Point, x: int, y: int, width: int, height: int): MoveBranch
  {
    if !robotPresent then NoRobot
    else if speed <= 0.0 then Instant
    else if IsShortMove(start, x, y, speed, width, height) then ShortMove
    else Animated
  }

  /** The future as the source completes it: a short move completes with null. */
  function CompletionAsWritten(branch: MoveBranch): MoveFuture
  {
    match branch
    case NoRobot => Completed(Some(false))
    case Instant => Completed(Some(true))
    case ShortMove => Completed(None)
    case Animated => Animating
  }

  /** The future as documented: a completed move reports whether it was injected. */
  function Completion(branch: MoveBranch): MoveFuture
  {
    match branch
    case NoRobot => Completed(Some(false))
    case Instant | ShortMove => Completed(Some(true))
    case Animated => Animating
  }

  /** The events injected before moveMouse returns. */
  function MoveEvents(branch: MoveBranch, x: int, y: int): seq<Event>
  {
    match branch
    case Instant | ShortMove => [MouseMove(x, y)]
    case NoRobot | Animated => []
  }

  /**
   * As written, a present robot moved one pixel at one diagonal per second on
   * a 1920x1080 screen takes the short branch and completes with null.
   */
  lemma ShortMoveCompletesWithNullAsWritten()
    ensures SelectBranch(true, 1.0, Point(0, 0), 1, 0, 1920, 1080) == ShortMove
    ensures CompletionAsWritten(ShortMove) == Completed(None)
  {
  }

  /**
   * Every completed move carries a Boolean, true exactly when a robot is
   * present; a completed move has put the pointer on the target.
   */
  lemma CompletedMovesReportInjection(robotPresent: bool, speed: real, start: Point, x: int, y: int, width: int, height: int)
    ensures var branch := SelectBranch(robotPresent, speed, start, x, y, width, height);
      match Completion(branch)
      case Completed(v) =>
        v == Some(robotPresent) && MoveEvents(branch, x, y) == (if robotPresent then [MouseMove(x, y)] else [])
      case Animating => robotPresent && speed > 0.0 && MoveEvents(branch, x, y) == []
  {
  }

  /** Where the source already completes with a Boolean, the documented future agrees with it. */
  lemma CompletionAgreesOutsideShortMoves(branch: MoveBranch)
    requires branch != ShortMove
    ensures Completion(branch) == CompletionAsWritten(branch)
  {
  }
}
