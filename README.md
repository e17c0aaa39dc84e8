# Snake game state machine, modelled in Dafny

This project models the game logic of a browser snake game (`main/snake.js`).
The snake is a list of pixel positions on a grid of 20-pixel cells, with the
head first. Each timer tick commits the direction staged by the arrow keys
and moves the head one cell. The tick checks for a wall hit, then a hit on
any segment (the tail included), then food. A normal move drops the tail.
Eating keeps the tail, adds one point, raises the best score if needed,
places new food, and shortens the tick interval: 120 ms, minus 10 ms per 5
points, never below 40 ms. The loop is either running or stopped. Game over
stops it and waits for Enter. Space toggles the loop, Enter restarts a
stopped game, and the Start, Pause and Restart buttons do what their names
say.

The model has four modules:

- `Grid` (`grid.dfy`) covers cells, directions, a step of the head, the board bounds and the centre cell.
- `Speed` (`speed.dfy`) is the interval formula of `adjustSpeed`.
- `Rules` (`rules.dfy`) is the whole session as a value, `State`, with one function per transition: `Tick`, `KeyDown`, `Reset` (initGame), `Restart`, `ClickStart`, `ClickPause`, `EndGame` (gameOver). `Apply` and `Run` give the effect of any event and of any sequence of events.
- `Invariants` (`invariants.dfy`) proves what the transitions keep. Every segment is on the board and aligned to the grid. Segments are pairwise distinct. The food is on a free cell. The length is the score plus one, and the score is at most the best score. The interval equals `SpeedFor(score)`. The staged direction is never the reverse of the committed one. Over any run of events, the best score never drops.
- `Game` (`game.dfy`) holds class `Session`. Its fields are the page's global variables, and its methods are the page's functions and handlers. They update the fields in place. Each method is proved to change the session exactly as the matching `Rules` function says, so every lemma of `Invariants` applies to the class.

Random numbers are a parameter. `draws` is the sequence of cells (column, row) that `Math.random` would produce, in order. `placeFood` keeps retrying until a draw lands on a free cell, so its loop keeps the first free draw. The caller must supply a sequence that contains a free cell. The timer is the `running` flag: a tick is delivered only while the flag is set, which is exactly when an interval is installed.

The model also reproduces these behaviours of the code:

- The body check includes the current tail cell, so moving into the cell the tail is about to leave ends the game.
- Arrow keys still stage a direction after game over.
- Space or the Start button after game over resumes the game that ended. The snake is not reset.
- Pressing Enter after game over runs both listeners. The keydown handler restarts the game. The one-shot listener then detaches and clicks Start, which does nothing because the loop already runs. Pressing Enter while the game runs only detaches a leftover listener.

## Model

| member | source | states |
|---|---|---|
| Grid.Opposite | main/snake.js:223-226 | the direction each arrow key's guard rejects differs from that key's own direction |
| Grid.OppositeIsInvolution | main/snake.js:223-226 | reversing a direction twice gives it back |
| Grid.Step | main/snake.js:119-125 | the new head is exactly one cell (20 pixels) away, along the axis of the direction |
| Grid.StepThenBack | main/snake.js:119-125 | a step followed by a step in the opposite direction returns to the start |
| Grid.StepKeepsAligned | main/snake.js:119-125 | a step from a cell corner lands on a cell corner |
| Grid.Centre | main/snake.js:41 | the start cell (floor(COLS/2), floor(ROWS/2)) in pixels is on the board and aligned |
| Grid.CellPixel | main/snake.js:66-67 | a drawn (column, row) times BOX is aligned to the grid |
| Grid.CellPixelOnGrid | main/snake.js:66-67 | a drawn cell with column < COLS and row < ROWS is on the board |
| Grid.PixelCell | main/snake.js:66-67 | the cell of an aligned pixel position converts back to that position |
| Grid.PixelCellOnBoard | main/snake.js:66-67 | the cell of a position on the board is one the random source can draw |
| Speed.SpeedFor | main/snake.js:167-170 | the computed interval always lies in [speedMin, speedInit] = [40, 120] |
| Speed.SpeedNonIncreasing | main/snake.js:168-170 | a higher score never gives a longer interval |
| Speed.SpeedAtFloorIff | main/snake.js:168-170 | the interval is at the 40 ms floor exactly when the score is at least 40 |
| Speed.SpeedChangesOnlyAtMultiples | main/snake.js:168 | the interval changes only on scores that are multiples of speedStepEvery |
| Speed.SpeedExamples | main/snake.js:167-170 | scores 0, 5, 20 and 200 give 120, 110, 80 and 40 ms |
| Rules.FirstFree | main/snake.js:64-76 | the draw placeFood keeps is the first whose cell is not occupied; every earlier draw was occupied |
| Rules.FoodFromIsFree | main/snake.js:64-76 | the placed food is on the board and on no occupied cell |
| Rules.FoodFrom | main/snake.js:64-76 | the placed food is on no occupied cell |
| Rules.EndGame | main/snake.js:202-207 | game over stops the loop and attaches the Enter listener; snake, food, score, best, directions and interval are kept |
| Rules.Reset | main/snake.js:39-60 | initGame gives one segment at the centre, direction and staged direction RIGHT, score 0, interval speedInit, food off the snake, loop stopped; best and the listener are kept |
| Rules.Classify | main/snake.js:127-142 | the tick's outcome is a wall hit exactly when the new head is off the board, a body hit exactly when it is on the board and on a segment, and eating exactly when it is on the board, on no segment and on the food |
| Rules.Tick | main/snake.js:116-163 | the corrected tick: the length grows by one exactly on eating, a hit keeps the snake and stops the loop, otherwise the new head is the stepped head and the loop keeps its state; the staged direction is committed and best never drops |
| Rules.TickAsWritten | main/snake.js:116-163 | the tick as written, with the food placed before the head is prepended; the same length, head, direction and best facts as the corrected tick |
| Rules.KeyDown | main/snake.js:211-240 | the two keydown listeners: best is kept, keys other than Enter never touch snake, food, score or the committed direction, and Enter always detaches the one-shot listener |
| Rules.Start | main/snake.js:181-185 | after startLoop the loop runs, and nothing else changes |
| Rules.Stop | main/snake.js:187-193 | after clearLoop the loop is stopped, and nothing else changes |
| Rules.Restart | main/snake.js:250-253 | the Restart button gives the state initGame sets up, with the loop running |
| Rules.Launch | main/snake.js:11-35 | the page as loaded (these values, then the initGame call on the last line, 257) has one segment at the centre, food off it, direction and staged direction RIGHT, score 0, the stored best score, interval speedInit, the loop stopped and no Enter listener |
| Rules.ClickStart | main/snake.js:244-246 | after the Start button the loop runs, and nothing else changes |
| Rules.ClickPause | main/snake.js:247-249 | after the Pause button the loop is stopped, and nothing else changes |
| Invariants.PrependDistinct | main/snake.js:159 | prepending a head that is on no segment keeps the segments distinct |
| Invariants.AdvanceDistinct | main/snake.js:155-159 | popping the tail and prepending a fresh head keeps the segments distinct |
| Invariants.TickEffects | main/snake.js:116-163 | a tick commits the staged direction, which never reverses the previous one. It ends the game exactly on a wall or body hit, and then leaves snake, food, score and best alone and awaits Enter. A normal move gives [head] + old minus its tail, with the same length. Eating gives [head] + old, one longer. The score rises by exactly 1 only when eating. Best becomes max(best, score) |
| Invariants.TickKeepsInv | main/snake.js:116-159 | a tick keeps the invariant: segments on the board and distinct, food on a free cell, length = score + 1, score <= best, interval = SpeedFor(score), staged direction not the reverse of the committed one |
| Invariants.TickAsWrittenKeepsShape | main/snake.js:142-159 | the tick as written keeps every part of the invariant except the food being off the snake |
| Invariants.AsWrittenFoodCanCoverHead | main/snake.js:151-159 | with placeFood before unshift, a state satisfying the invariant exists where the new food lies under the new head |
| Invariants.TickAsWrittenEffects | main/snake.js:116-163 | the tick as written commits the staged direction, which never reverses the previous one. It ends the game exactly on a wall or body hit, leaving snake, food, score and best alone. A move keeps the length, eating grows it by one. The score rises by exactly 1 only when eating. Best becomes max(best, score) |
| Invariants.TickAsWrittenDiffersOnlyInFood | main/snake.js:151-159 | where both ticks are defined, the tick as written and the corrected tick give the same state except for the food |
| Invariants.AsWrittenEatAlwaysHasFreeDraw | main/snake.js:64-76 | as written, when the snake eats, the eaten cell is a drawable cell off the old snake, so placeFood's retry loop can always end |
| Invariants.CorrectedTickNeedsASpareCell | main/snake.js:151-159 | a state satisfying the invariant on a 2 x 2 board where eating fills the board, and no draw sequence gives the corrected tick a free cell |
| Invariants.ReversalGuard | main/snake.js:223-226 | an arrow key opposite to the committed direction changes nothing; any other arrow key stages its direction and changes nothing else |
| Invariants.SpaceToggles | main/snake.js:229-233 | Space pauses a running game and resumes a stopped one, and changes nothing else |
| Invariants.EnterRestartsStopped | main/snake.js:211-239 | Enter on a stopped game gives a restarted game with the loop running and the listener detached; Enter on a running game only detaches the listener |
| Invariants.ResetEstablishesInv | main/snake.js:39-56 | initGame yields the invariant with one segment at the centre, direction and staged direction RIGHT, score 0, interval speedInit, loop stopped, best score kept |
| Invariants.ApplyKeepsInv | main/snake.js:222-253 | every tick, key press and button click keeps the invariant and never lowers the best score |
| Invariants.RunKeepsInv | main/snake.js:142-149 | over any sequence of events the invariant holds at the end and the best score has not dropped |
| Invariants.ApplyAsWrittenKeepsShape | main/snake.js:116-163 | every event, with ticks as written, keeps every part of the invariant except the food being off the snake, and never lowers the best score |
| Invariants.RunAsWrittenKeepsShape | main/snake.js:116-163 | over any sequence of events of the code as written, runs that fill the board included, every part of the invariant except the food being off the snake holds at the end, and the best score has not dropped |
| Invariants.LaunchEstablishesInv | main/snake.js:11-35 | the page as loaded (initial values, stored best, then initGame) satisfies the invariant, keeps the stored best and has no Enter listener attached |
| Game.Session.constructor | main/snake.js:11-35 | the new session is the loaded page's state and is valid |
| Game.Session.InitGame | main/snake.js:39-60 | the session becomes `Reset` of its previous state and is valid |
| Game.Session.PlaceFood | main/snake.js:64-76 | the retry loop sets the food to the first draw that is off the snake, and changes nothing else |
| Game.Session.CollisionWithBody | main/snake.js:107-112 | the result is true exactly when the head equals some segment, the tail included |
| Game.Session.Tick | main/snake.js:116-163 | the session moves as `Rules.Tick` says and stays valid |
| Game.Session.AdjustSpeed | main/snake.js:167-177 | the interval becomes SpeedFor(score) and a running loop keeps running; nothing else changes |
| Game.Session.StartLoop | main/snake.js:181-185 | the loop runs afterwards, and does not restart if it was already running |
| Game.Session.ClearLoop | main/snake.js:187-193 | the loop is stopped afterwards |
| Game.Session.RestartLoop | main/snake.js:195-198 | the loop runs afterwards |
| Game.Session.GameOver | main/snake.js:202-207 | the loop is stopped and the Enter listener is attached; the snake, food and score are kept |
| Game.Session.KeyDown | main/snake.js:211-240 | the session moves as `Rules.KeyDown` says: guarded arrow staging, Space toggling the loop, Enter restarting a stopped game and detaching the one-shot listener; the session stays valid |
| Game.Session.ClickStart | main/snake.js:244-246 | the loop runs afterwards; nothing else changes |
| Game.Session.ClickPause | main/snake.js:247-249 | the loop is stopped afterwards; nothing else changes |
| Game.Session.ClickRestart | main/snake.js:250-253 | a new game is set up and its loop runs; the session is valid |

## Left out

- Drawing (`draw`) and the score display (`updateHUD`) are rendering only. They read the state and do not change it.
- The interval timer (`setInterval`, `clearInterval`) is the `running` flag. Ticks are calls to `Session.Tick`, allowed only while the flag is set. Timing is not modelled.
- Storage of the best score (`localStorage`) is left out. The stored value is a constructor parameter, and writes are not modelled. A stored value that is not a non-negative integer is not modelled.
- The game-over `alert` is left out. Attaching and detaching the Enter listener is the `awaitingRestart` flag.
- `Math.random` in `placeFood` is replaced by the `draws` parameter. Every draw has column < COLS and row < ROWS. The sequence must contain a free cell. In the source, a free cell always exists when the snake eats, because `placeFood` tests the old snake and the eaten cell is on the board and off it. The retry loop can only hang in `initGame` on a canvas of a single cell, which the model excludes by requiring a second free cell there.
- Game.Session.Tick and Rules.Tick do not cover eating the last free cell of the board. They place the food off the grown snake, and then no cell qualifies (shown by Invariants.CorrectedTickNeedsASpareCell). The code as written (Rules.TickAsWritten) handles that case: the food goes under the new head, and the next tick ends the game. Invariants.RunKeepsInv therefore says nothing about runs that fill the board; Invariants.RunAsWrittenKeepsShape covers every run of the code as written, those included, for every part of the invariant except the food being off the snake.
- Game.Session.constructor requires the canvas sides to be positive multiples of 20 pixels. With other sizes, the source's COLS and ROWS are not whole numbers, and the model does not cover them.
- Game.Session.PlaceFood and Game.Session.Tick place food according to `draws`, not a uniform distribution. The model says nothing about how likely each cell is.

## Findings

| source | as written | input that shows it | evidently intended | confidence | as-written member | corrected member |
|---|---|---|---|---|---|---|
| main/snake.js:151-159 | on eating, `placeFood()` runs before `snake.unshift(newHead)`, so the free-cell test ignores the new head | snake [(100,100)] heading right on a 400x400 canvas, food at (120,100), first random cell (6,5), which is pixel (120,100): the new food lands under the new head and is hidden by it | new food is never on any segment of the grown snake (when the snake eats the last free cell no such food exists; see "## Left out") | high, not executed | Rules.TickAsWritten, Invariants.AsWrittenFoodCanCoverHead | Rules.Tick, Invariants.TickKeepsInv, Game.Session.Tick |
