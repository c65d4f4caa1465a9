# Snake game engine in Dafny

This project models the simulation engine of a browser Snake game (`script.js`). The game
runs on a 25 × 25 grid. The snake is a head-first list of cells. A timer ticks the game.
Each tick applies a pending turn unless it would reverse the snake. The head then moves one
cell. Leaving the board or hitting any cell of the snake ends the game. Food makes the snake
grow by one cell and is worth 10 points. The high score follows the score upwards. Every 50
points the tick interval drops by 10 ms, down to 50 ms. The buttons and keys start, pause,
resume and reset the game.

The project has five modules:

- `Grid` (`grid.dfy`): cells, directions, the anti-reversal rule, one-cell moves, and the
  mapping from keys and swipes to requested turns.
- `Occupancy` (`occupancy.dfy`): food placement by rejection sampling, and a counting
  argument. A body of distinct cells leaves a free cell exactly when it is shorter than the
  625-cell board.
- `Rules` (`rules.dfy`): the page's variables as one `World` value. Every operation is a
  function on it. `Valid` is the invariant every operation keeps. `Run` gives the state
  after any sequence of inputs.
- `Engine` (`engine.dfy`): class `Game`. Its fields are the page's variables. Its methods
  update them in place as `script.js` does. Each method is proved to give the state that
  the matching `Rules` function gives.
- `Scenarios` (`scenarios.dfy`): concrete runs, such as the first tick, running off the
  edge, a rejected reversal, hitting the tail, and the speed ramp.

Randomness and timers are modelled as follows:

- `Math.random` in `generateFood` becomes a parameter `rolls`. It is the sequence of cells
  the random source would produce. The do-while loop takes the first roll that misses the
  snake. Callers must supply a sequence in which some roll misses the snake. Without one,
  the source loops forever.
- `gameInterval` becomes an `Interval`. It records three things: whether a handle was ever
  stored (the variable is never reset to null), whether the timer that handle names is
  still registered, and how many timers are still registered although their handle was
  overwritten. Time itself is not modelled. A timer firing is a call to `UpdateGame`.

Four behaviours of the code are easy to miss:

- Starting a new game keeps the current `gameSpeed`. It is not reset to 150.
- `pauseGame` is refused only when the game is over or no timer was ever registered.
  `resetGame` stops only the timer `gameInterval` refers to, and registers none. Timers
  whose handle was overwritten earlier keep running. Once a handle has been stored,
  pressing space twice after a reset pauses and then resumes the game on a new timer.
- `startGame` does not stop the timer it replaces. Pressing start during a game leaves two
  timers driving ticks.
- The page itself calls `initGame` when it loads. The game is then neither over nor
  paused, so Enter does nothing until a game has ended.

## Model

| member | source | states |
|---|---|---|
| `Grid.TurnAllowed` | script.js:142-147 | The four-clause test holds exactly when the requested direction is not the reverse of the current one. |
| `Grid.Resolve` | script.js:140-151 | The resolved direction is never the reverse of the current one. It is either the current one or the request. A request that is not a reversal is always applied. |
| `Grid.Advance` | script.js:157-170 | The new head is exactly one cell from the old one. It lies on the axis of the direction, towards the direction's side (y grows downwards). |
| `Grid.AdvanceBack` | script.js:157-170 | Moving one cell and then one cell in the opposite direction returns to the start cell. |
| `Grid.KeyCommand` | script.js:284-307 | Only the four arrow keys steer, each toward its own direction. Only space toggles pause. Only Enter confirms. Every other key is ignored. |
| `Grid.KeyRoundTrip` | script.js:284-307 | Every command has a key that issues it, and that key maps back to the command. |
| `Grid.Gesture` | script.js:331-346 | The direction of a swipe is on its dominant axis and has the sign of the displacement there. A tie counts as vertical. A swipe gives no direction only when nothing moved. |
| `Grid.SwipeTurn` | script.js:327-347 | A swipe never requests the reverse of the snake's current direction. Whatever it requests is the swipe's gesture direction. |
| `Grid.SwipeIsFilteredGesture` | script.js:327-347 | A swipe requests exactly its gesture direction, unless that direction reverses the snake. In that case the request is left unchanged. |
| `Occupancy.FirstFree` | script.js:73-78 | The kept roll misses the snake, and every roll before it hits the snake. |
| `Occupancy.DrawFood` | script.js:69-81 | The resampling loop returns the first roll that misses the snake. That cell is on the board and not on the snake. |
| `Occupancy.FreeCellExistsIffShort` | script.js:73-78 | A body of distinct grid cells leaves a free cell exactly when it has fewer than 625 cells. |
| `Occupancy.FairRollsIffFreeCell` | script.js:73-78 | Some roll sequence lets the resampling loop finish exactly when the body has fewer than 625 cells. On a full board the loop never ends. |
| `Rules.SetInterval` | script.js:246 | After `setInterval` the variable holds a handle whose timer is registered. One more timer now calls `gameLoop`. |
| `Rules.ClearInterval` | script.js:226 | `clearInterval` stops only the timer the variable names. The handle stays, and lost timers keep running. |
| `Rules.Loaded` | script.js:25-37 | Before its closing `initGame` call the page has score 0, the stored high score, a speed of 150 ms, no timer handle and no registered timer, and counts as over. |
| `Rules.Init` | script.js:43-66 | The snake becomes `[(10,10),(9,10),(8,10)]`. The direction is right with 'right' pending. The score is 0 and both flags are cleared. The food is on the board and off the snake. Speed, high score and timer carry over. The invariant holds afterwards. |
| `Rules.Over` | script.js:224-231 | The game is over and the referenced timer is stopped. The handle and the lost timers stay as they were. Nothing else changes. |
| `Rules.CollidesIffGrownBreaks` | script.js:172-182 | For a snake on the board without repeated cells, the two collision tests fail exactly when putting the new head in front keeps the snake on the board without repeated cells. The tail cell still counts, because the tests run before it is dropped. |
| `Rules.Tick` | script.js:136-216 | A tick keeps the invariant. When the game is paused or over, a tick changes nothing. |
| `Rules.TickTurns` | script.js:140-151 | A tick never turns the snake around. A running tick consumes the pending request, whether it was applied or not. |
| `Rules.TickCollides` | script.js:172-182 | When the new head is off the board, or on any cell of the snake including the tail, the game ends. Snake, food, score, high score and speed stay unchanged. The referenced timer is stopped and lost timers keep running. |
| `Rules.TickMoves` | script.js:184-212 | Otherwise exactly one new head goes in front, one cell from the old head in the new direction. The tail is dropped unless the food was eaten, so the length stays the same or grows by one. |
| `Rules.TickScores` | script.js:188-201 | Eating adds exactly 10 points, and nothing else changes the score. The high score becomes the score whenever the score passes it. The food moves exactly when it is eaten. |
| `Rules.TickSpeeds` | script.js:203-208 | The speed drops by exactly 10 ms only when food is eaten, the new score is a multiple of 50 and the speed is above 50 ms. The referenced timer is then replaced by a registered one. |
| `Rules.FeedEffects` | script.js:188-208 | Eating adds 10 points. The high score becomes the score when the score passes it. The food moves to the first roll that misses the grown snake. When the new score is a multiple of 50 and the speed is above 50 ms, the speed drops by 10 ms and the referenced timer is replaced by a registered one. Otherwise the timer is untouched. Nothing else changes. |
| `Rules.SlideDropsTail` | script.js:209-212 | Without food only the last cell is removed. The rest of the snake keeps its order and nothing else changes. |
| `Rules.FeedKeepsValid` | script.js:184-208 | A tick that eats leaves a consistent state. |
| `Rules.SlideKeepsValid` | script.js:184-212 | A tick that moves without eating leaves a consistent state. |
| `Rules.PrependDistinct` | script.js:185 | Putting a cell that is not on the snake in front keeps the snake free of repeated cells. |
| `Rules.SnakeShorterThanBoard` | script.js:73-78 | In every consistent state the snake is shorter than the board, because the food is on a free cell. |
| `Rules.FoodPlaceableIffRoom` | script.js:200-201 | When the snake eats, new food can be placed exactly when the grown snake still leaves a free cell. |
| `Rules.Start` | script.js:234-253 | A paused game resumes with nothing else changed. Otherwise the game becomes exactly what `initGame` gives: the initial snake heading right with 'right' pending, food on the first free roll, score 0, speed and high score kept. Either way a new timer is registered and the old one is not stopped. The invariant holds afterwards. |
| `Rules.Pause` | script.js:256-270 | When the game is over or no timer was ever registered, nothing changes. Otherwise only the pause flag flips and the timer follows it. The invariant holds afterwards. |
| `Rules.PauseTwice` | script.js:256-270 | Pausing twice restores every variable except the timer. The timer is restored too unless the game was set up without one. |
| `Rules.Reset` | script.js:273-278 | The game becomes exactly what `initGame` gives. The referenced timer is stopped and no new one is registered. Timers whose handle was lost keep running, so exactly those remain registered. Speed and high score carry over. The invariant holds afterwards. |
| `Rules.OnKey` | script.js:281-308 | An arrow key only records the requested direction, in any state. Space pauses or resumes unless the game is over. Enter starts a new game only when the game is over. Unknown keys change nothing. The invariant holds afterwards. |
| `Rules.OnSwipe` | script.js:327-347 | A swipe changes at most the pending direction. It requests the swipe's gesture direction unless that reverses the snake, and otherwise leaves the request as it was. The invariant holds afterwards. |
| `Rules.Apply` | script.js:349-360 | Every input the page reacts to keeps the invariant. A timer fires only while at least one is registered. |
| `Rules.Run` | script.js:349-360 | Any sequence of inputs from a consistent state leads to a consistent state. |
| `Rules.PageLoad` | script.js:25-37 | The page as loaded is consistent and running, and no timer is registered yet. |
| `Rules.Reachable` | script.js:349-364 | In every state the page can reach, the snake is on the board with no repeated cell and is off the food. The high score is at least the score. The speed is a multiple of 10 between 50 and 150 ms. |
| `Engine.Game.constructor` | script.js:25-37 | The declared variables followed by `initGame` give exactly the loaded page, and the invariant holds. |
| `Engine.Game.GenerateFood` | script.js:69-81 | The food becomes the first roll that misses the snake. |
| `Engine.Game.InitGame` | script.js:43-66 | The variables become `Rules.Init` of their old values. |
| `Engine.Game.GameOver` | script.js:224-231 | The variables become `Rules.Over` of their old values. |
| `Engine.Game.UpdateGame` | script.js:136-216 | The in-place tick leaves the variables equal to `Rules.Tick` of their old values and keeps the invariant. |
| `Engine.Game.EatFood` | script.js:188-208 | The food branch leaves the variables equal to `Rules.Feed` of their old values. |
| `Engine.Game.StartGame` | script.js:234-253 | The variables become `Rules.Start` of their old values, and the invariant holds. |
| `Engine.Game.PauseGame` | script.js:256-270 | The variables become `Rules.Pause` of their old values, and the invariant holds. |
| `Engine.Game.ResetGame` | script.js:273-278 | The variables become `Rules.Reset` of their old values, and the invariant holds. |
| `Engine.Game.HandleKeyPress` | script.js:281-308 | The variables become `Rules.OnKey` of their old values, and the invariant holds. |
| `Engine.Game.HandleSwipe` | script.js:327-347 | The variables become `Rules.OnSwipe` of their old values, and the invariant holds. |
| `Scenarios.FirstTick` | script.js:154-170 | After the start button on the loaded page, one timer is registered and the first tick gives the snake `[(11,10),(10,10),(9,10)]`. |
| `Scenarios.RightEdge` | script.js:172-176 | Moving to x = 25 ends the game. Later ticks change nothing. |
| `Scenarios.ReverseRejected` | script.js:140-151 | A snake moving up ignores a request to go down and moves to (5,4). |
| `Scenarios.TailIsDeadly` | script.js:179-182 | Moving onto the cell the tail is about to leave ends the game. |
| `Scenarios.FifthFoodSpeedsUp` | script.js:203-208 | Going from 40 to 50 points takes the speed from 150 to 140 ms. A roll that lands on the new head is drawn again. |
| `Scenarios.FirstFoodKeepsSpeed` | script.js:203-208 | Going from 0 to 10 points leaves the speed alone. |
| `Scenarios.SpeedCarriesOver` | script.js:43-66 | A new game after game over keeps the speed the last game reached. |
| `Scenarios.StartWhileRunning` | script.js:247-252 | Pressing start during a game leaves two timers registered. |
| `Scenarios.ResetThenSpaceTwice` | script.js:257-262 | After resetting a game that lost no timer, none runs. Space twice registers one and the game runs again. |
| `Scenarios.ResetKeepsLostTimer` | script.js:273-278 | Start pressed twice on the loaded page and then reset leaves the game running on the timer whose handle was overwritten. |
| `Scenarios.LoadedPageIgnoresKeys` | script.js:297-306 | On the page as loaded, space and Enter change nothing. |

## Left out

- `drawGame` and all canvas drawing (script.js:84-133): rendering only, with floating-point arc geometry.
- DOM updates, button labels, the game-over overlay and `console.log`: user-interface side effects with no effect on game state.
- `localStorage`: the stored high score is a constructor parameter, and writing it back is not modelled. The source reads it as a string and compares it with `>`. The model treats it as a non-negative integer.
- Timer timing: `setInterval` and `clearInterval` are modelled only by which timers are registered. Their periods are not modelled. Each timer firing is one call to `UpdateGame`, whichever timer fires.
- `Math.random`: replaced by the `rolls` parameter (see above). A random source that keeps hitting the snake forever is outside the model. This is the source's endless loop on a full board. `FairRollsIffFreeCell` shows it happens only when the snake covers all 625 cells.
- Touch capture (script.js:311-325): `HandleSwipe` takes the displacement as integers. The browser reports screen coordinates that may be fractional, but only their signs and the comparison of their magnitudes matter.
- `Engine.Game.EatFood`: this method is the food branch of `updateGame`, split out so that each proof stays small. It is not a separate function in the source.
- `server.js`, `src/lib/api.ts`, `src/lib/swrConfig.ts` and the React files: a static file server, a mocked data fetcher and view code. None of them is part of the game engine.
