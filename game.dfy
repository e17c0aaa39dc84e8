/**
 * The game session as the page keeps it: one object whose fields are the
 * page's global variables, and whose methods are the functions and event
 * handlers that update them in place. Each method is proved to move the
 * session exactly as the matching function of `Rules` says, so the
 * guarantees of `Invariants` carry over to every sequence of calls; the
 * public entry points (the timer tick, the keydown handler, the three
 * buttons) keep `Valid()`.
 *
 * The interval timer is the `running` flag: a tick is only delivered while
 * it is set. The random source of placeFood is the sequence `draws` of cells
 * (column, row) it would yield, in order.
 */
module Game {
  import opened Grid
  import opened Speed
  import opened Rules
  import Invariants

  class Session {
    const width: int
    const height: int
    var snake: seq<Point>
    var direction: Direction
    var nextDirection: Direction
    var food: Point
    var score: nat
    var best: nat
    var currentSpeed: int
    var running: bool
    var awaitingRestart: bool

    /** The session as a value of the state machine. */
    ghost function Snapshot(): (s: State)
      reads this
    {
      State(width, height, snake, direction, nextDirection, food, score, best,
            currentSpeed, running, awaitingRestart)
    }

    ghost predicate Valid()
      reads this
    {
      Inv(Snapshot())
    }

    /** Loading the page: the declared initial values, the best score read
        from storage, then initGame. */
    constructor (width: int, height: int, storedBest: nat, draws: seq<Point>)
      requires ValidBoard(width, height) && DrawsOnBoard(draws, width, height)
      requires HasFreeDraw(draws, [Centre(width, height)])
      ensures Valid()
      ensures Snapshot() == Launch(width, height, storedBest, draws)
    {
      this.width := width;
      this.height := height;
      snake := [];
      direction := Right;
      nextDirection := Right;
      food := Point(0, 0);
      score := 0;
      best := storedBest;
      currentSpeed := SpeedInit;
      running := false;
      awaitingRestart := false;
      new;
      InitGame(draws);
      Invariants.LaunchEstablishesInv(width, height, storedBest, draws);
    }

    /** initGame: a new game, with the loop stopped. */
    method InitGame(draws: seq<Point>)
      requires RestartEnabled(Snapshot(), draws)
      modifies this
      ensures Valid()
      ensures Snapshot() == Reset(old(Snapshot()), draws)
    {
      ghost var before := Snapshot();
      snake := [Centre(width, height)];
      direction := Right;
      nextDirection := direction;
      score := 0;
      currentSpeed := SpeedInit;
      PlaceFood(draws);
      ClearLoop();
      running := false;
      Invariants.ResetEstablishesInv(before, draws);
    }

    /** placeFood: retries draws until one lands off the snake. */
    method PlaceFood(draws: seq<Point>)
      requires HasFreeDraw(draws, snake)
      modifies this`food
      ensures food == FoodFrom(draws, snake)
    {
      ghost var chosen := FirstFree(draws, snake);
      var i := 0;
      while CellPixel(draws[i]) in snake
        invariant 0 <= i <= chosen
        decreases chosen - i
      {
        i := i + 1;
      }
      food := CellPixel(draws[i]);
    }

    /** collisionWithBody: whether `head` is on any segment, tail included. */
    method CollisionWithBody(head: Point) returns (hit: bool)
      ensures hit <==> head in snake
    {
      var i := 0;
      while i < |snake|
        invariant 0 <= i <= |snake|
        invariant forall j :: 0 <= j < i ==> snake[j] != head
      {
        if head == snake[i] {
          return true;
        }
        i := i + 1;
      }
      return false;
    }

    /** update, run by the timer: move, die, or eat and grow. The new food is
        placed after the new head is prepended. */
    method Tick(draws: seq<Point>)
      requires Valid() && Enabled(Snapshot(), TickEvent(draws))
      modifies this
      ensures Valid()
      ensures Snapshot() == Rules.Tick(old(Snapshot()), draws)
    {
      ghost var before := Snapshot();
      direction := nextDirection;
      var head := Step(snake[0], direction);
      if !InBoard(head, width, height) {
        GameOver();
        Invariants.TickKeepsInv(before, draws);
        return;
      }
      var hit := CollisionWithBody(head);
      if hit {
        GameOver();
        Invariants.TickKeepsInv(before, draws);
        return;
      }
      if head == food {
        score := score + 1;
        if score > best {
          best := score;
        }
        snake := [head] + snake;
        PlaceFood(draws);
        AdjustSpeed();
      } else {
        snake := [head] + snake[..|snake| - 1];
      }
      Invariants.TickKeepsInv(before, draws);
    }

    /** adjustSpeed: the interval follows the score; a running loop is
        restarted with it, so it keeps running. */
    method AdjustSpeed()
      modifies this
      ensures Snapshot() == old(Snapshot()).(speed := SpeedFor(score))
    {
      var steps := score / SpeedStepEvery;
      var newSpeed := SpeedInit - steps * SpeedDecrease;
      if newSpeed < SpeedMin {
        newSpeed := SpeedMin;
      }
      if newSpeed != currentSpeed {
        currentSpeed := newSpeed;
        if running {
          RestartLoop();
        }
      }
    }

    /** startLoop */
    method StartLoop()
      modifies this
      ensures Snapshot() == Start(old(Snapshot()))
    {
      if running {
        return;
      }
      running := true;
    }

    /** clearLoop */
    method ClearLoop()
      modifies this
      ensures Snapshot() == Stop(old(Snapshot()))
    {
      running := false;
    }

    /** restartLoop */
    method RestartLoop()
      modifies this
      ensures Snapshot() == Start(Stop(old(Snapshot())))
    {
      ClearLoop();
      StartLoop();
    }

    /** gameOver: stop the loop and wait for Enter. */
    method GameOver()
      modifies this
      ensures Snapshot() == EndGame(old(Snapshot()))
    {
      ClearLoop();
      awaitingRestart := true;
    }

    /** The keydown handler, then the one-shot Enter listener if attached. */
    method KeyDown(key: Key, draws: seq<Point>)
      requires Valid() && Enabled(Snapshot(), KeyEvent(key, draws))
      modifies this
      ensures Valid()
      ensures Snapshot() == Rules.KeyDown(old(Snapshot()), key, draws)
    {
      match key {
        case Arrow(d) =>
          if direction != Opposite(d) {
            nextDirection := d;
          }
        case Space =>
          if running {
            ClearLoop();
          } else {
            StartLoop();
          }
        case Enter =>
          if !running {
            ClickRestart(draws);
          }
          if awaitingRestart {
            awaitingRestart := false;
            ClickStart();
          }
        case Other =>
      }
    }

    /** The Start button. */
    method ClickStart()
      requires Valid()
      modifies this
      ensures Valid()
      ensures Snapshot() == Rules.ClickStart(old(Snapshot()))
    {
      if !running {
        StartLoop();
      }
    }

    /** The Pause button. */
    method ClickPause()
      requires Valid()
      modifies this
      ensures Valid()
      ensures Snapshot() == Rules.ClickPause(old(Snapshot()))
    {
      if running {
        ClearLoop();
      }
    }

    /** The Restart button. */
    method ClickRestart(draws: seq<Point>)
      requires RestartEnabled(Snapshot(), draws)
      modifies this
      ensures Valid()
      ensures Snapshot() == Restart(old(Snapshot()), draws)
    {
      InitGame(draws);
      StartLoop();
    }
  }
}
