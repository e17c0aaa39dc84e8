/**
 * What the game-state machine guarantees: every transition keeps the
 * invariant (segments on the board and pairwise distinct, food on a free
 * cell, length = score + 1, score <= best, interval = SpeedFor(score), staged
 * direction never the reverse of the committed one), the effects of one tick,
 * the reversal guard of the arrow keys, and the best score never dropping
 * over any run of events.
 */
module Invariants {
  import opened Grid
  import opened Speed
  import opened Rules

  // ---------------------------------------------------------------------
  // Sequence facts used by the tick

  /** Prepending a cell not yet in a distinct sequence keeps it distinct. */
  lemma {:induction false} PrependDistinct(h: Point, s: seq<Point>)
    requires Distinct(s) && h !in s
    ensures Distinct([h] + s)
  {
    var t := [h] + s;
    forall i, j | 0 <= i < j < |t| ensures t[i] != t[j] {
      if i == 0 {
        assert t[j] == s[j - 1];
      } else {
        assert t[i] == s[i - 1] && t[j] == s[j - 1];
      }
    }
  }

  /** Moving the snake (new head in front, tail dropped) keeps its cells distinct. */
  lemma {:induction false} AdvanceDistinct(h: Point, s: seq<Point>)
    requires |s| > 0 && Distinct(s) && h !in s
    ensures Distinct([h] + s[..|s| - 1])
  {
    var p := s[..|s| - 1];
    assert forall i, j :: 0 <= i < j < |p| ==> p[i] == s[i] && p[j] == s[j];
    assert h !in p by {
      forall i | 0 <= i < |p| ensures p[i] != h {
        assert p[i] == s[i];
      }
    }
    PrependDistinct(h, p);
  }

  // ---------------------------------------------------------------------
  // One tick

  /** The effects of one tick on a reachable state. */
  lemma TickEffects(st: State, draws: seq<Point>)
    requires Inv(st) && Enabled(st, TickEvent(draws))
    ensures var r := Tick(st, draws);
            var head := NextHead(st);
            // the staged direction is committed, and it never reverses the previous one
            && r.direction == st.nextDirection
            && r.direction != Opposite(st.direction)
            // the game ends exactly on a wall or body hit, leaving snake, food and score alone
            && (!r.running <==> (!InBoard(head, st.width, st.height) || head in st.snake))
            && (!r.running ==> r.snake == st.snake && r.food == st.food && r.score == st.score
                               && r.best == st.best && r.awaitingRestart)
            // a normal move keeps the length, eating grows it by one
            && (Classify(st) == Advance ==> r.snake == [head] + st.snake[..|st.snake| - 1]
                                            && |r.snake| == |st.snake|)
            && (Classify(st) == Eat ==> r.snake == [head] + st.snake && |r.snake| == |st.snake| + 1)
            // the score goes up by exactly one precisely on eating
            && (r.score == st.score + 1 <==> Classify(st) == Eat)
            && (Classify(st) != Eat ==> r.score == st.score)
            // the best score becomes max(best, score)
            && r.best == (if r.score > st.best then r.score else st.best)
            && r.best >= st.best
  {
  }

  /** A tick keeps the invariant, in particular the new food is off the grown snake. */
  lemma TickKeepsInv(st: State, draws: seq<Point>)
    requires Inv(st) && Enabled(st, TickEvent(draws))
    ensures Inv(Tick(st, draws))
  {
    var r := Tick(st, draws);
    var head := NextHead(st);
    StepKeepsAligned(st.snake[0], st.nextDirection);
    match Classify(st)
    case HitWall =>
    case HitBody =>
    case Eat =>
      var body := [head] + st.snake;
      PrependDistinct(head, st.snake);
      FoodFromIsFree(draws, body, st.width, st.height);
      assert AllOnGrid(body, st.width, st.height) by {
        forall i | 0 <= i < |body| ensures OnGrid(body[i], st.width, st.height) {
          if i > 0 { assert body[i] == st.snake[i - 1]; }
        }
      }
    case Advance =>
      var body := [head] + st.snake[..|st.snake| - 1];
      AdvanceDistinct(head, st.snake);
      assert AllOnGrid(body, st.width, st.height) by {
        forall i | 0 <= i < |body| ensures OnGrid(body[i], st.width, st.height) {
          if i > 0 { assert body[i] == st.snake[i - 1]; }
        }
      }
      assert st.food !in body by {
        forall i | 0 <= i < |body| ensures body[i] != st.food {
          if i > 0 { assert body[i] == st.snake[i - 1]; }
        }
      }
  }

  /** The tick as written keeps everything but the food being off the snake. */
  lemma TickAsWrittenKeepsShape(st: State, draws: seq<Point>)
    requires Shape(st) && st.running && DrawsOnBoard(draws, st.width, st.height)
    requires Classify(st) == Eat ==> HasFreeDraw(draws, st.snake)
    ensures Shape(TickAsWritten(st, draws))
  {
    var head := NextHead(st);
    StepKeepsAligned(st.snake[0], st.nextDirection);
    match Classify(st)
    case HitWall =>
    case HitBody =>
    case Eat =>
      var body := [head] + st.snake;
      PrependDistinct(head, st.snake);
      FoodFromIsFree(draws, st.snake, st.width, st.height);
      assert AllOnGrid(body, st.width, st.height) by {
        forall i | 0 <= i < |body| ensures OnGrid(body[i], st.width, st.height) {
          if i > 0 { assert body[i] == st.snake[i - 1]; }
        }
      }
    case Advance =>
      var body := [head] + st.snake[..|st.snake| - 1];
      AdvanceDistinct(head, st.snake);
      assert AllOnGrid(body, st.width, st.height) by {
        forall i | 0 <= i < |body| ensures OnGrid(body[i], st.width, st.height) {
          if i > 0 { assert body[i] == st.snake[i - 1]; }
        }
      }
  }

  /** The as-written tick can put the new food under the new head: a
      one-segment snake at pixel (100, 100) heading right eats the food at
      (120, 100), and the first random cell (6, 5) is (120, 100) again, which
      the old snake does not cover. */
  lemma AsWrittenFoodCanCoverHead()
    ensures var st := State(400, 400, [Point(100, 100)], Right, Right, Point(120, 100),
                            0, 0, SpeedInit, true, false);
            var draws := [Point(6, 5)];
            && Inv(st) && Classify(st) == Eat && HasFreeDraw(draws, st.snake)
            && var r := TickAsWritten(st, draws);
               r.food == r.snake[0] && !Inv(r)
  {
    var st := State(400, 400, [Point(100, 100)], Right, Right, Point(120, 100),
                    0, 0, SpeedInit, true, false);
    var draws := [Point(6, 5)];
    assert CellPixel(draws[0]) == Point(120, 100);
    assert FirstFree(draws, st.snake) == 0;
  }

  /** The tick as written has the same effects as the corrected one on
      everything but the food: the staged direction is committed, a wall or
      body hit ends the game and leaves snake, food and score alone, a move
      keeps the length, eating grows it by one and adds exactly one point, and
      the best score becomes max(best, score). */
  lemma TickAsWrittenEffects(st: State, draws: seq<Point>)
    requires Shape(st) && st.running
    requires Classify(st) == Eat ==> HasFreeDraw(draws, st.snake)
    ensures var r := TickAsWritten(st, draws);
            var head := NextHead(st);
            && r.direction == st.nextDirection
            && r.direction != Opposite(st.direction)
            && (!r.running <==> (!InBoard(head, st.width, st.height) || head in st.snake))
            && (!r.running ==> r.snake == st.snake && r.food == st.food && r.score == st.score
                               && r.best == st.best && r.awaitingRestart)
            && (Classify(st) == Advance ==> r.snake == [head] + st.snake[..|st.snake| - 1]
                                            && |r.snake| == |st.snake|)
            && (Classify(st) == Eat ==> r.snake == [head] + st.snake && |r.snake| == |st.snake| + 1)
            && (r.score == st.score + 1 <==> Classify(st) == Eat)
            && (Classify(st) != Eat ==> r.score == st.score)
            && r.best == (if r.score > st.best then r.score else st.best)
  {
  }

  /** Where both ticks are defined, they differ at most in where the new food goes. */
  lemma TickAsWrittenDiffersOnlyInFood(st: State, draws: seq<Point>)
    requires |st.snake| > 0
    requires Classify(st) == Eat ==> HasFreeDraw(draws, [NextHead(st)] + st.snake)
    requires Classify(st) == Eat ==> HasFreeDraw(draws, st.snake)
    ensures TickAsWritten(st, draws).(food := Tick(st, draws).food) == Tick(st, draws)
  {
  }

  /** As written, eating always finds a free draw: the eaten cell itself is on
      the board and off the old snake, so a random source that yields it ends
      the retry loop. The as-written tick therefore never hangs, even when the
      snake eats the last free cell. */
  lemma AsWrittenEatAlwaysHasFreeDraw(st: State)
    requires Shape(st) && Classify(st) == Eat
    ensures var draws := [PixelCell(NextHead(st))];
            DrawsOnBoard(draws, st.width, st.height) && HasFreeDraw(draws, st.snake)
  {
    var head := NextHead(st);
    StepKeepsAligned(st.snake[0], st.nextDirection);
    PixelCellOnBoard(head, st.width, st.height);
    var draws := [PixelCell(head)];
    assert CellPixel(draws[0]) !in st.snake;
  }

  /** The corrected tick needs a free cell after the snake has grown. When the
      snake eats the last free cell, no draw qualifies: here a 2 x 2 board whose
      three cells hold the snake and whose fourth holds the food. */
  lemma CorrectedTickNeedsASpareCell()
    ensures var st := State(40, 40, [Point(0, 0), Point(0, 20), Point(20, 20)], Up, Right,
                            Point(20, 0), 2, 2, SpeedInit, true, false);
            && Inv(st) && Classify(st) == Eat
            && forall draws: seq<Point> :: DrawsOnBoard(draws, 40, 40) ==>
                 !HasFreeDraw(draws, [NextHead(st)] + st.snake)
  {
    var st := State(40, 40, [Point(0, 0), Point(0, 20), Point(20, 20)], Up, Right,
                    Point(20, 0), 2, 2, SpeedInit, true, false);
    var grown := [NextHead(st)] + st.snake;
    assert grown == [Point(20, 0), Point(0, 0), Point(0, 20), Point(20, 20)];
    forall draws: seq<Point> | DrawsOnBoard(draws, 40, 40) ensures !HasFreeDraw(draws, grown) {
      forall k | 0 <= k < |draws| ensures CellPixel(draws[k]) in grown {
        assert DrawOnBoard(draws[k], 40, 40);
        var c := draws[k];
        assert c.x == 0 || c.x == 1;
        assert c.y == 0 || c.y == 1;
      }
    }
  }

  // ---------------------------------------------------------------------
  // Keyboard, buttons, restart

  /** An arrow key that reverses the committed direction changes nothing; any
      other arrow key stages its direction and changes nothing else. */
  lemma ReversalGuard(st: State, d: Direction, draws: seq<Point>)
    ensures d == Opposite(st.direction) ==> KeyDown(st, Arrow(d), draws) == st
    ensures d != Opposite(st.direction) ==> KeyDown(st, Arrow(d), draws) == st.(nextDirection := d)
  {
  }

  /** Space pauses a running game and resumes a stopped one, changing nothing else. */
  lemma SpaceToggles(st: State, draws: seq<Point>)
    ensures KeyDown(st, Space, draws) == st.(running := !st.running)
  {
  }

  /** Enter on a stopped game restarts it: a new game whose loop runs, with the
      one-shot listener detached. Enter on a running game only detaches it. */
  lemma EnterRestartsStopped(st: State, draws: seq<Point>)
    requires !st.running ==> RestartEnabled(st, draws)
    ensures !st.running ==>
              KeyDown(st, Enter, draws) == Restart(st, draws).(awaitingRestart := false)
    ensures st.running ==> KeyDown(st, Enter, draws) == st.(awaitingRestart := false)
  {
  }

  /** initGame gives a one-cell snake at the centre heading right, score 0,
      interval speedInit, the loop stopped, the best score kept, and a state
      satisfying the invariant. */
  lemma ResetEstablishesInv(st: State, draws: seq<Point>)
    requires RestartEnabled(st, draws)
    ensures var r := Reset(st, draws);
            && Inv(r)
            && r.snake == [Centre(st.width, st.height)] && r.direction == Right
            && r.nextDirection == Right && r.score == 0 && r.speed == SpeedInit
            && !r.running && r.best == st.best
  {
    var body := [Centre(st.width, st.height)];
    FoodFromIsFree(draws, body, st.width, st.height);
    SpeedExamples();
  }

  /** Every event keeps the invariant and never lowers the best score. */
  lemma ApplyKeepsInv(st: State, ev: Event)
    requires Inv(st) && Enabled(st, ev)
    ensures Inv(Apply(st, ev)) && Apply(st, ev).best >= st.best
  {
    match ev
    case TickEvent(draws) =>
      TickKeepsInv(st, draws);
      TickEffects(st, draws);
    case KeyEvent(key, draws) =>
      if key == Enter && !st.running {
        ResetEstablishesInv(st, draws);
      }
    case StartClick =>
    case PauseClick =>
    case RestartClick(draws) =>
      ResetEstablishesInv(st, draws);
  }

  /** Over any run of events from a reachable state the invariant holds at the
      end and the best score has not dropped. */
  lemma {:induction false} RunKeepsInv(st: State, evs: seq<Event>)
    requires Inv(st) && RunEnabled(st, evs)
    ensures Inv(Run(st, evs)) && Run(st, evs).best >= st.best
    decreases |evs|
  {
    if evs != [] {
      ApplyKeepsInv(st, evs[0]);
      RunKeepsInv(Apply(st, evs[0]), evs[1..]);
    }
  }

  /** The page as loaded satisfies the invariant, with the stored best score. */
  lemma LaunchEstablishesInv(width: int, height: int, storedBest: nat, draws: seq<Point>)
    requires ValidBoard(width, height) && DrawsOnBoard(draws, width, height)
    requires HasFreeDraw(draws, [Centre(width, height)])
    ensures Inv(Launch(width, height, storedBest, draws))
    ensures Launch(width, height, storedBest, draws).best == storedBest
    ensures !Launch(width, height, storedBest, draws).awaitingRestart
  {
    var st := State(width, height, [], Right, Right, Point(0, 0), 0, storedBest, SpeedInit, false, false);
    ResetEstablishesInv(st, draws);
  }

  // ---------------------------------------------------------------------
  // Runs of the code as written

  /** Every event, with ticks as written, keeps the shape of the state and
      never lowers the best score. */
  lemma ApplyAsWrittenKeepsShape(st: State, ev: Event)
    requires Shape(st) && EnabledAsWritten(st, ev)
    ensures Shape(ApplyAsWritten(st, ev)) && ApplyAsWritten(st, ev).best >= st.best
  {
    match ev
    case TickEvent(draws) =>
      TickAsWrittenKeepsShape(st, draws);
    case KeyEvent(key, draws) =>
      if key == Enter && !st.running {
        ResetEstablishesInv(st, draws);
      }
    case StartClick =>
    case PauseClick =>
    case RestartClick(draws) =>
      ResetEstablishesInv(st, draws);
  }

  /** Over any run of the code as written, board-filling runs included, the
      shape holds at the end and the best score has not dropped. */
  lemma {:induction false} RunAsWrittenKeepsShape(st: State, evs: seq<Event>)
    requires Shape(st) && RunEnabledAsWritten(st, evs)
    ensures Shape(RunAsWritten(st, evs)) && RunAsWritten(st, evs).best >= st.best
    decreases |evs|
  {
    if evs != [] {
      ApplyAsWrittenKeepsShape(st, evs[0]);
      RunAsWrittenKeepsShape(ApplyAsWritten(st, evs[0]), evs[1..]);
    }
  }
}
