/**
 * The game-state machine of the snake game as values: one `State` holding
 * everything the session keeps (snake, committed and staged direction, food,
 * score, best score, tick interval, whether the loop runs, whether the
 * one-shot restart-on-Enter listener is attached), the transitions the timer,
 * the keyboard and the three buttons trigger, and the invariants every
 * transition keeps. The class `Game.Session` is proved to follow these
 * functions step by step.
 */
module Rules {
  import opened Grid
  import opened Speed

  datatype State = State(
    width: int,               // canvas width in pixels
    height: int,              // canvas height in pixels
    snake: seq<Point>,        // segments in pixels, head first
    direction: Direction,     // the committed direction of the last tick
    nextDirection: Direction, // the direction staged by the arrow keys
    food: Point,
    score: nat,
    best: nat,
    speed: int,               // current tick interval in milliseconds
    running: bool,            // the interval timer is installed
    awaitingRestart: bool     // the one-shot Enter listener of game over is attached
  )

  /** What the random source may yield next: cells (column, row) on the board. */
  datatype Event =
    | TickEvent(draws: seq<Point>)
    | KeyEvent(key: Key, draws: seq<Point>)
    | StartClick
    | PauseClick
    | RestartClick(draws: seq<Point>)

  /** The keys the handler distinguishes; every other key is `Other`. */
  datatype Key = Arrow(dir: Direction) | Space | Enter | Other

  /** How a tick ends, in the order the checks are made. */
  datatype Move = HitWall | HitBody | Eat | Advance

  // ---------------------------------------------------------------------
  // Invariants

  predicate Distinct(s: seq<Point>)
  {
    forall i, j :: 0 <= i < j < |s| ==> s[i] != s[j]
  }

  predicate AllOnGrid(s: seq<Point>, width: int, height: int)
  {
    forall i :: 0 <= i < |s| ==> OnGrid(s[i], width, height)
  }

  /** What holds of every reachable state, food aside. */
  predicate Shape(st: State)
  {
    && ValidBoard(st.width, st.height)
    && |st.snake| == st.score + 1
    && AllOnGrid(st.snake, st.width, st.height)
    && Distinct(st.snake)
    && OnGrid(st.food, st.width, st.height)
    && st.nextDirection != Opposite(st.direction)
    && st.score <= st.best
    && st.speed == SpeedFor(st.score)
  }

  /** The full invariant: the shape, and the food lies on no segment. */
  predicate Inv(st: State)
  {
    Shape(st) && st.food !in st.snake
  }

  // ---------------------------------------------------------------------
  // Food placement

  /** Some draw lands on a cell that `occupied` does not cover. */
  predicate HasFreeDraw(draws: seq<Point>, occupied: seq<Point>)
  {
    exists k :: 0 <= k < |draws| && CellPixel(draws[k]) !in occupied
  }

  /** The index of the draw placeFood keeps: the first one whose cell is free. */
  function FirstFree(draws: seq<Point>, occupied: seq<Point>): (k: nat)
    requires HasFreeDraw(draws, occupied)
    ensures k < |draws| && CellPixel(draws[k]) !in occupied
    ensures forall j :: 0 <= j < k ==> CellPixel(draws[j]) in occupied
  {
    if CellPixel(draws[0]) !in occupied then 0
    else
      var k :| 0 <= k < |draws| && CellPixel(draws[k]) !in occupied;
      assert CellPixel(draws[1..][k - 1]) !in occupied;
      1 + FirstFree(draws[1..], occupied)
  }

  /** The food placeFood settles on. */
  function FoodFrom(draws: seq<Point>, occupied: seq<Point>): (f: Point)
    requires HasFreeDraw(draws, occupied)
    ensures f !in occupied
  {
    CellPixel(draws[FirstFree(draws, occupied)])
  }

  /** The chosen food is on the board and off every occupied cell. */
  lemma FoodFromIsFree(draws: seq<Point>, occupied: seq<Point>, width: int, height: int)
    requires ValidBoard(width, height) && DrawsOnBoard(draws, width, height)
    requires HasFreeDraw(draws, occupied)
    ensures OnGrid(FoodFrom(draws, occupied), width, height)
    ensures FoodFrom(draws, occupied) !in occupied
  {
    CellPixelOnGrid(draws[FirstFree(draws, occupied)], width, height);
  }

  // ---------------------------------------------------------------------
  // Loop lifecycle

  /** startLoop: installs the timer unless it is already running. */
  function Start(st: State): (r: State)
    ensures r.running
    ensures r == st.(running := true)
  {
    if st.running then st else st.(running := true)
  }

  /** clearLoop: removes the timer. */
  function Stop(st: State): (r: State)
    ensures !r.running
    ensures r == st.(running := false)
  {
    st.(running := false)
  }

  /** gameOver: stops the loop and attaches the one-shot Enter listener. */
  function EndGame(st: State): (r: State)
    ensures !r.running && r.awaitingRestart
    ensures r.snake == st.snake && r.food == st.food && r.score == st.score && r.best == st.best
    ensures r.direction == st.direction && r.nextDirection == st.nextDirection && r.speed == st.speed
  {
    Stop(st).(awaitingRestart := true)
  }

  /** initGame: one segment at the centre heading right, score 0, initial
      speed, fresh food, loop stopped. */
  function Reset(st: State, draws: seq<Point>): (r: State)
    requires ValidBoard(st.width, st.height)
    requires HasFreeDraw(draws, [Centre(st.width, st.height)])
    ensures r.snake == [Centre(st.width, st.height)] && r.food !in r.snake
    ensures r.direction == Right && r.nextDirection == Right
    ensures r.score == 0 && r.speed == SpeedInit && !r.running
    ensures r.best == st.best && r.awaitingRestart == st.awaitingRestart
  {
    var body := [Centre(st.width, st.height)];
    Stop(st.(snake := body, direction := Right, nextDirection := Right, score := 0,
             speed := SpeedInit, food := FoodFrom(draws, body)))
  }

  /** The state the page is in once loaded: the declared initial values with
      the stored best score, followed by initGame. The placeholder food is
      overwritten by initGame. */
  function Launch(width: int, height: int, storedBest: nat, draws: seq<Point>): (r: State)
    requires ValidBoard(width, height)
    requires HasFreeDraw(draws, [Centre(width, height)])
    ensures r.width == width && r.height == height
    ensures r.snake == [Centre(width, height)] && r.food !in r.snake
    ensures r.direction == Right && r.nextDirection == Right
    ensures r.score == 0 && r.best == storedBest && r.speed == SpeedInit
    ensures !r.running && !r.awaitingRestart
  {
    Reset(State(width, height, [], Right, Right, Point(0, 0), 0, storedBest, SpeedInit, false, false), draws)
  }

  /** The Restart button: initGame, then startLoop. */
  function Restart(st: State, draws: seq<Point>): (r: State)
    requires ValidBoard(st.width, st.height)
    requires HasFreeDraw(draws, [Centre(st.width, st.height)])
    ensures r.running
    ensures r == Reset(st, draws).(running := true)
  {
    Start(Reset(st, draws))
  }

  /** The Start button. */
  function ClickStart(st: State): (r: State)
    ensures r.running
    ensures r == st.(running := true)
  {
    if !st.running then Start(st) else st
  }

  /** The Pause button. */
  function ClickPause(st: State): (r: State)
    ensures !r.running
    ensures r == st.(running := false)
  {
    if st.running then Stop(st) else st
  }

  // ---------------------------------------------------------------------
  // One tick

  /** The head the next tick computes from the staged direction. */
  function NextHead(st: State): (head: Point)
    requires |st.snake| > 0
  {
    Step(st.snake[0], st.nextDirection)
  }

  /** Wall first, then body (tail included), then food. */
  function Classify(st: State): (m: Move)
    requires |st.snake| > 0
    ensures m == HitWall <==> !InBoard(NextHead(st), st.width, st.height)
    ensures m == HitBody <==> InBoard(NextHead(st), st.width, st.height) && NextHead(st) in st.snake
    ensures m == Eat <==> InBoard(NextHead(st), st.width, st.height) && NextHead(st) !in st.snake
                          && NextHead(st) == st.food
  {
    var head := NextHead(st);
    if !InBoard(head, st.width, st.height) then HitWall
    else if head in st.snake then HitBody
    else if head == st.food then Eat
    else Advance
  }

  /** update, with the new food chosen off the grown snake. */
  function Tick(st: State, draws: seq<Point>): (r: State)
    requires |st.snake| > 0
    requires Classify(st) == Eat ==> HasFreeDraw(draws, [NextHead(st)] + st.snake)
    ensures |r.snake| == |st.snake| + (if Classify(st) == Eat then 1 else 0)
    ensures Classify(st) == HitWall || Classify(st) == HitBody ==> r.snake == st.snake && !r.running
    ensures Classify(st) == Eat || Classify(st) == Advance ==> r.snake[0] == NextHead(st) && r.running == st.running
    ensures r.direction == st.nextDirection && r.best >= st.best
  {
    var head := NextHead(st);
    var committed := st.(direction := st.nextDirection);
    match Classify(st)
    case HitWall => EndGame(committed)
    case HitBody => EndGame(committed)
    case Eat =>
      var score := st.score + 1;
      var body := [head] + st.snake;
      committed.(snake := body, score := score,
                 best := if score > st.best then score else st.best,
                 food := FoodFrom(draws, body), speed := SpeedFor(score))
    case Advance =>
      committed.(snake := [head] + st.snake[..|st.snake| - 1])
  }

  /** update as written: on eating, placeFood runs before the new head is
      prepended, so the food only avoids the old segments. */
  function TickAsWritten(st: State, draws: seq<Point>): (r: State)
    requires |st.snake| > 0
    requires Classify(st) == Eat ==> HasFreeDraw(draws, st.snake)
    ensures |r.snake| == |st.snake| + (if Classify(st) == Eat then 1 else 0)
    ensures Classify(st) == HitWall || Classify(st) == HitBody ==> r.snake == st.snake && !r.running
    ensures Classify(st) == Eat || Classify(st) == Advance ==> r.snake[0] == NextHead(st) && r.running == st.running
    ensures r.direction == st.nextDirection && r.best >= st.best
  {
    var head := NextHead(st);
    var committed := st.(direction := st.nextDirection);
    match Classify(st)
    case HitWall => EndGame(committed)
    case HitBody => EndGame(committed)
    case Eat =>
      var score := st.score + 1;
      committed.(snake := [head] + st.snake, score := score,
                 best := if score > st.best then score else st.best,
                 food := FoodFrom(draws, st.snake), speed := SpeedFor(score))
    case Advance =>
      committed.(snake := [head] + st.snake[..|st.snake| - 1])
  }

  // ---------------------------------------------------------------------
  // Keyboard

  /** The keydown handler, followed by the one-shot restart listener when
      game over has attached it (it was registered later, so it runs second). */
  function KeyDown(st: State, key: Key, draws: seq<Point>): (r: State)
    requires key == Enter && !st.running ==>
               ValidBoard(st.width, st.height) && HasFreeDraw(draws, [Centre(st.width, st.height)])
    ensures r.best == st.best
    ensures key != Enter ==> r.snake == st.snake && r.food == st.food && r.score == st.score
                             && r.direction == st.direction
    ensures key == Enter ==> !r.awaitingRestart
  {
    match key
    case Arrow(d) => if st.direction != Opposite(d) then st.(nextDirection := d) else st
    case Space => if st.running then Stop(st) else Start(st)
    case Enter =>
      var handled := if !st.running then Restart(st, draws) else st;
      if handled.awaitingRestart then ClickStart(handled.(awaitingRestart := false)) else handled
    case Other => st
  }

  // ---------------------------------------------------------------------
  // Any event, and runs of events

  /** Whether the event can happen in `st`: ticks only fire while the loop
      runs, and the random source must eventually yield a free cell. */
  predicate Enabled(st: State, ev: Event)
  {
    && |st.snake| > 0
    && match ev
       case TickEvent(draws) =>
         && st.running
         && DrawsOnBoard(draws, st.width, st.height)
         && (Classify(st) == Eat ==> HasFreeDraw(draws, [NextHead(st)] + st.snake))
       case KeyEvent(key, draws) =>
         key == Enter && !st.running ==> RestartEnabled(st, draws)
       case StartClick => true
       case PauseClick => true
       case RestartClick(draws) => RestartEnabled(st, draws)
  }

  predicate RestartEnabled(st: State, draws: seq<Point>)
  {
    && ValidBoard(st.width, st.height)
    && DrawsOnBoard(draws, st.width, st.height)
    && HasFreeDraw(draws, [Centre(st.width, st.height)])
  }

  function Apply(st: State, ev: Event): (r: State)
    requires Enabled(st, ev)
  {
    match ev
    case TickEvent(draws) => Tick(st, draws)
    case KeyEvent(key, draws) => KeyDown(st, key, draws)
    case StartClick => ClickStart(st)
    case PauseClick => ClickPause(st)
    case RestartClick(draws) => Restart(st, draws)
  }

  predicate RunEnabled(st: State, evs: seq<Event>)
    decreases |evs|
  {
    evs == [] || (Enabled(st, evs[0]) && RunEnabled(Apply(st, evs[0]), evs[1..]))
  }

  function Run(st: State, evs: seq<Event>): (r: State)
    requires RunEnabled(st, evs)
    decreases |evs|
  {
    if evs == [] then st else Run(Apply(st, evs[0]), evs[1..])
  }

  // ---------------------------------------------------------------------
  // Runs of the code as written

  /** Whether the event can happen in `st` when ticks follow the code as
      written: the random source must yield a cell off the old snake. */
  predicate EnabledAsWritten(st: State, ev: Event)
  {
    match ev
    case TickEvent(draws) =>
      && |st.snake| > 0
      && st.running
      && DrawsOnBoard(draws, st.width, st.height)
      && (Classify(st) == Eat ==> HasFreeDraw(draws, st.snake))
    case _ => Enabled(st, ev)
  }

  /** Any event, with ticks as written. */
  function ApplyAsWritten(st: State, ev: Event): (r: State)
    requires EnabledAsWritten(st, ev)
  {
    match ev
    case TickEvent(draws) => TickAsWritten(st, draws)
    case _ => Apply(st, ev)
  }

  predicate RunEnabledAsWritten(st: State, evs: seq<Event>)
    decreases |evs|
  {
    evs == [] || (EnabledAsWritten(st, evs[0]) && RunEnabledAsWritten(ApplyAsWritten(st, evs[0]), evs[1..]))
  }

  function RunAsWritten(st: State, evs: seq<Event>): (r: State)
    requires RunEnabledAsWritten(st, evs)
    decreases |evs|
  {
    if evs == [] then st else RunAsWritten(ApplyAsWritten(st, evs[0]), evs[1..])
  }
}
