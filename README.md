# Falling-items tap game: a verified model of the game engine

`script.js` runs a small browser game on a 400 x 600 canvas. Items fall from
the top of the field: friends, which the player taps to score ten points, and
bombs, which cost a life when tapped. A friend that falls past the bottom edge
also costs a life. A session starts with 30 lives and ends when none are left.
Bombs become more likely and items fall faster as the score grows. Each time
the score reaches a positive multiple of fifty, the spawn timer is re-armed
with an interval that shrinks as the score grows, down to a floor of 500 ms
(reached at score 5000).

This project models the state of that engine and its handlers in Dafny:

- `geometry.dfy` (module `Geometry`): the canvas size and the scaling of a
  pointer position from page coordinates to the canvas's own 400 x 600 grid.
- `difficulty.dfy` (module `Difficulty`): the fall-speed, bomb-chance and
  spawn-interval formulas, each a function of the score.
- `items.dfy` (module `Items`): a falling item (`GameItem`) as a value, with
  its constructor, its one-frame move and its hit box.
- `engine.dfy` (module `Engine`): the game state as one value. It has one
  function per handler (`imageLoaded`, `startGame`, `endGame`, `spawnItem`,
  `gameLoop`, `handleInput`), each giving the state the handler leaves behind.
  It also holds `TickFrom`, which follows the frame loop index by index, and
  the reference definitions `Kept` and `Misses`, which describe a whole frame
  at once.
- `engine_proofs.dfy` (module `EngineProofs`): what the handlers promise,
  proved about those functions. This covers:
  - a full frame and a frame cut short by the last life;
  - which item a tap takes, and what catching a friend or a bomb does;
  - the asset-loading count and the start and end of a session;
  - an invariant kept by every handler, and by `endGame`.
- `session.dfy` (module `Session`): class `Game`. Its fields are the script's
  module-level variables, and its methods are the handlers. They update the
  fields in place, with the same reverse loops and early returns as the
  script. Each method is proved to leave exactly the state that the matching
  `Engine` function describes. Each handler also requires and keeps
  `Valid()`. `EndGame` is also called part way through `GameLoop` and
  `CatchAt`, where a running session may have just lost its last life, so it
  promises only that it keeps `Valid()` when that held before. The helpers
  `ClearSpawnTimer`, `SetSpawnTimer` and `CatchAt` run between the steps of a
  handler and state only the new state.

`Valid()` is `Engine.Inv`, the invariant every reachable state satisfies:
- the score is a non-negative multiple of ten;
- a running session has at least one life;
- the stored spawn-timer handle names a live timer exactly while a session
  runs, and at most one spawn timer is ever live;
- the spawn interval is the one computed for the last multiple of fifty the
  score reached;
- the asset flag is set exactly when two picture callbacks have run;
- every item on the field is a 50 x 50 box lying within the field
  horizontally, and falls at least one pixel per frame.

Timers are modelled by what the script can observe of them:
- the interval last passed to `setInterval`;
- whether the stored handle still names a live timer;
- how many spawn timers are live.

Each random draw (`Math.random()`) is a parameter in [0, 1). Coordinates,
speeds and the interval are exact reals.

## Model

| member | source | states |
|---|---|---|
| Geometry.ToCanvas | script.js:143-161 | A click inside the canvas's bounding rectangle lands inside the 400 x 600 canvas grid, on each axis separately. |
| Geometry.ToDisplay | script.js:143-161 | Inverse scaling: a point of the canvas grid is shown inside the bounding rectangle. |
| Geometry.CanvasRoundTrip | script.js:144-161 | Scaling a page position into the canvas and back gives the same page position: the scaling loses nothing. |
| Geometry.DisplayRoundTrip | script.js:144-161 | Showing a canvas point on the page and scaling it back gives the same canvas point. |
| Geometry.HalfWidthExample | script.js:144-161 | On a canvas laid out at half size, a tap at (50, 75) from its corner is the canvas point (100, 150). |
| Difficulty.SpeedMultiplier | script.js:71 | The speed multiplier is at least 1 for any non-negative score. |
| Difficulty.FallSpeed | script.js:72 | The fall speed lies in [multiplier, 3 x multiplier) and is never below the minimum speed of 1. |
| Difficulty.BombChance | script.js:99 | The bomb chance is capped at one half and is at least 0.2 for a non-negative score. |
| Difficulty.BombChanceCapped | script.js:99 | The bomb chance reaches its cap of one half exactly from score 150 on. |
| Difficulty.BombChanceMonotone | script.js:99 | A higher score never lowers the bomb chance. |
| Difficulty.SpeedMultiplierMonotone | script.js:71 | A higher score never lowers the speed multiplier. |
| Difficulty.SpawnIntervalFor | script.js:174 | The re-armed spawn interval lies in [500, 1000] ms for a non-negative score and is 1000 ms at score 0. |
| Difficulty.SpawnIntervalMonotone | script.js:174 | A higher score never lengthens the spawn interval. |
| Items.NewItem | script.js:64-73 | A new item sits just above the field (bottom edge at y = 0), keeps its x and kind, is a well-formed 50 x 50 box when x is in [0, 350), and falls at a speed in [multiplier, 3 x multiplier). |
| Items.KindWindow | script.js:99-100 | For every non-negative score, a kind draw below 0.2 gives a bomb and a draw of one half or more gives a friend. |
| Items.SpawnX | script.js:101 | The spawn column keeps the whole box inside the field: x is in [0, 350). |
| Items.Update | script.js:76-78 | One frame moves an item down by exactly its speed, changes nothing else about it, and keeps it well-formed. |
| Engine.Remove | script.js:128 | `splice(i, 1)` shortens the item list by exactly one. |
| Engine.TickFrom | script.js:114-130 | The frame loop never adds items and never adds lives, and it stops early only once lives are at zero or below. |
| Engine.TopmostHit | script.js:164-168 | The hit test finds no item exactly when no box contains the point. A found item contains the point, and no newer item does. |
| EngineProofs.RemoveAt | script.js:128 | Splicing out item k keeps every other item in its order and keeps all items well-formed. |
| EngineProofs.KeptOnField | script.js:119-129 | After a frame that runs to the end (see `GameLoopCompletes`), every remaining item is on the field, and well-formed items stay well-formed. |
| EngineProofs.TickFromCompletes | script.js:114-130 | If the escaping friends among the first i items cost fewer lives than remain, the loop over them ends normally. The visited items become the moved survivors in their original order, and lives drop by exactly the number of escaped friends. |
| EngineProofs.TickFromEndsEarly | script.js:114-130 | If the escaping friends take every life, the loop stops at the friend j that takes the last one. That friend is moved but not spliced, the items below it are untouched, and the items above it are the moved survivors. |
| EngineProofs.GameLoopCompletes | script.js:107-131 | A frame while playing, with fewer escaping friends than lives, moves every item and removes exactly those past the bottom. Survivors keep their order, lives fall by the number of escaped friends, and score, timers and assets are unchanged. |
| EngineProofs.GameLoopEndsEarly | script.js:119-126 | A frame in which escaping friends take every life ends the session on the spot, at the friend j whose miss takes the last life: counting from j to the end, exactly as many friends escape as there were lives, and fewer than that after j. Lives are zero, play stops, and the spawn timer is cleared. The score is unchanged, the friend that took the last life stays in the list, and the items before it are not moved. |
| EngineProofs.GameLoopIdle | script.js:107-108 | A frame while no session runs changes nothing. |
| EngineProofs.KeptSize | script.js:119-129 | A frame that runs to the end (see `GameLoopCompletes`) keeps exactly the items that do not pass the bottom: kept plus escaped equals all. |
| EngineProofs.GameLoopBombsCostNothing | script.js:119-128 | A frame in which no friend escapes (only bombs, or nothing) leaves lives unchanged and the session running. |
| EngineProofs.OneFriendMissed | script.js:114-129 | Worked frame: a friend at y = 560 falling 50 per frame reaches 610, is removed, and costs one of three lives. |
| EngineProofs.SpawnItemAppends | script.js:98-105 | A spawn appends exactly one item at the end, and the earlier items and the rest of the state are unchanged. The new item is a well-formed box just above the field. It is a bomb exactly when the kind draw is below the bomb chance, and it falls at least as fast as the speed multiplier. |
| EngineProofs.HandleInputMisses | script.js:137-191 | Input while not playing, on a canvas with no area, or a tap that hits no item changes nothing. |
| EngineProofs.CatchFriend | script.js:170-176 | Tapping a friend removes exactly the newest item under the pointer and raises the score by exactly ten. Lives are unchanged and the session goes on with exactly one live spawn timer. The spawn interval changes only when the new score is a multiple of fifty, and at such a score it is the interval computed for that score. Nothing else changes, and the asset state stays as it was. |
| EngineProofs.CatchBomb | script.js:178-187 | Tapping a bomb removes exactly the newest item under the pointer and costs exactly one life, leaving the score unchanged. The session ends, with no live timer, exactly when no life is left. The spawn interval, the asset state and the timer while the session goes on are unchanged. |
| EngineProofs.NewestItemWins | script.js:164-168 | Of two overlapping items under the pointer, the newer one is taken and the older one stays. |
| EngineProofs.MilestoneStep | script.js:171-172 | Ten more points either stay below the next multiple of fifty or land exactly on it. |
| EngineProofs.InitialInv | script.js:21-37 | The state at script load satisfies the invariant. |
| EngineProofs.ImageLoadedPreservesInv | script.js:40-47 | A picture callback keeps the invariant. |
| EngineProofs.StartGamePreservesInv | script.js:194-213 | Starting a session keeps the invariant, so the earlier interval is cleared before the new one is set and one spawn timer is live. |
| EngineProofs.SpawnItemPreservesInv | script.js:98-105 | A spawn keeps the invariant, so every item on the field is well-formed. |
| EngineProofs.GameLoopPreservesInv | script.js:107-131 | A frame keeps the invariant, whether it runs to the end or ends the session part way. |
| EngineProofs.HandleInputPreservesInv | script.js:137-192 | A tap keeps the invariant. |
| EngineProofs.CatchPreservesInv | script.js:170-189 | A catch keeps the invariant: the interval matches the score's last multiple of fifty, and at most one timer is live. |
| EngineProofs.AssetsLoadedAtTwo | script.js:40-52 | After n load-or-error callbacks the count is n, and the assets count as loaded exactly when n >= 2. |
| EngineProofs.StartGameResets | script.js:194-213 | Start is refused until the assets are loaded. Once they are, it gives score 0, 30 lives, no items, a running session and exactly one live spawn timer at 1000 ms. The asset state is unchanged. |
| EngineProofs.EndGameStopsTimers | script.js:215-217 | Ending a session stops play and leaves no live spawn timer. Every other field, including score, items, lives, interval and asset state, is as it was. |
| Session.Game.constructor | script.js:21-37 | The fields start as the script's initial values and satisfy the invariant. The spawn interval starts at 1000 ms by model convention: the script's timer handle is unset until the first start, and no timer is live. |
| Session.Game.ClearSpawnTimer | script.js:211 | `clearInterval` stops the timer the handle names, if it is live. |
| Session.Game.SetSpawnTimer | script.js:212 | `setInterval` adds one live timer, and the handle now names it. |
| Session.Game.ImageLoaded | script.js:40-47 | Counts a callback and sets the asset flag at the second one, as `Engine.ImageLoaded` describes. It keeps the invariant. |
| Session.Game.SpawnItem | script.js:98-105 | Appends the new item as `Engine.SpawnItem` describes and keeps the invariant. |
| Session.Game.EndGame | script.js:215-221 | Stops play and clears the spawn timer, as `Engine.EndGame` describes, and keeps `Valid()` when it held before. |
| EngineProofs.EndGamePreservesInv | script.js:215-217 | Ending a session keeps the invariant. |
| Session.Game.StartGame | script.js:194-213 | Resets the session (or does nothing before the assets load), as `Engine.StartGame` describes. It keeps the invariant. |
| Session.Game.GameLoop | script.js:107-131 | The in-place reverse loop with splice and early return leaves exactly the state of `Engine.GameLoop`, with the properties proved above, and keeps the invariant. |
| Session.Game.CatchAt | script.js:170-189 | Applies the catch of item i in place, as `Engine.Catch` describes. |
| Session.Game.HandleInput | script.js:137-192 | Scales the click, then searches from the newest item down and catches at most the first hit, leaving exactly the state of `Engine.HandleInput`. It keeps the invariant. |

## Left out

- Page plumbing is not modelled: element lookups, score and lives text, overlay classes, button text and enabling, `alert` and `console.error`. These only display the state.
- Drawing is not modelled: `draw`, `clearRect`, the picture-or-rectangle fallback and the image objects. An item's `image` field follows from its kind and is dropped.
- Scheduling is not modelled. `requestAnimationFrame` and the firing of `setInterval` belong to the browser; the model calls the handlers directly. A timer is reduced to its interval, whether the handle names a live timer, and a count of live timers.
  - As a result, the model does not capture a frame callback still pending from an ended session when a new session starts.
- Touch versus mouse field extraction and `preventDefault` are left out. The pointer position and the canvas's bounding rectangle are plain parameters of `HandleInput`.
- `Math.random()` is not modelled as a distribution. Each draw is a parameter in [0, 1), so the model states what each draw leads to, not how likely it is.
- IEEE double rounding is left out. Positions, speeds, scale factors and the spawn interval are exact reals, and scores and lives are unbounded integers. Scores and lives stay far below 2^53 in play, so integer overflow does not arise.
  - A canvas of zero width or height would make the script's scale factor infinite, so every click lands at an infinite or NaN coordinate that no box contains. The model states that outcome directly: such a tap changes nothing.
- A `GameItem` is an object that `update` changes in place. It is modelled as a value in a sequence, and the update replaces the element at its index. Only `gameItems` holds items, so no aliasing is lost.
- `Engine.HandleInput` and `Session.Game.HandleInput` require `Bounding(rect)`, that the canvas's bounding rectangle has no negative width or height. `getBoundingClientRect` never returns a negative size, so this excludes no real input.
