# Snake game state, modelled in Dafny

This project models the game-state core of an Android Snake game (`GameState.kt`).
That core consists of:

- the immutable records `GameState`, `Snake`, `Food`, `Position` and `Direction`;
- `GameState.initial`, which builds a starting board;
- `GameState.update`, the per-tick step.

`initial` draws a random cell for the snake. It turns the snake LEFT when that cell lies right of the
middle of the board and RIGHT otherwise. It lays out a horizontal snake of `snakeLength` cells with the head
at the leading end, puts food on a second random cell and resets the scalar fields. `update` is still a stub
in the game and returns the state it is given.

Files:

- `kotlin_std.dfy` (module `KotlinStd`): the Kotlin library semantics the core relies on. It covers
  `lo until hi`, `hi downTo lo`, `map`, and `Int` division, which rounds toward zero.
- `game_state.dfy` (module `SnakeGame`): the records, `Initial`, `Update`, and the lemmas about them.

Randomness is an input. Each call of `Position.random(width, height)` becomes a parameter of `Initial`:
`start` for the snake and `foodAt` for the food. The precondition `IsRandomDraw` limits each one to the cells
that call can return. Every lemma therefore holds for every possible outcome of the draws. When a range is
empty, Kotlin's `random()` throws. No draw satisfies `IsRandomDraw` in that case, so `Initial` cannot be
called (`RandomDrawExists`).

`update` is a `// TODO` stub that returns `this` (`GameState.kt` lines 15-18). There is therefore no tick
behaviour to model: no movement, collision, eating or scoring. `Update` is the identity. The food draw in
`initial` is independent of the snake, so the food can land on it.

The source allows any `Int` for `snakeLength`. `0 until n` and `n - 1 downTo 0` are empty when `n <= 0`,
so the model gives such a snake an empty body.

## Model

| member | source | states |
|---|---|---|
| `KotlinStd.Until` | app/src/main/java/com/lightspark/snake/GameState.kt:27 | `lo until hi` has `hi - lo` elements (none if `hi <= lo`), and element `i` is `lo + i` |
| `KotlinStd.DownTo` | app/src/main/java/com/lightspark/snake/GameState.kt:29 | `hi downTo lo` has `hi - lo + 1` elements (none if `hi < lo`), and element `i` is `hi - i` |
| `KotlinStd.DownToReversesUntil` | app/src/main/java/com/lightspark/snake/GameState.kt:26-29 | `n - 1 downTo 0` is `0 until n` reversed, so both branches of `initial` use the same offsets |
| `KotlinStd.MapSeq` | app/src/main/java/com/lightspark/snake/GameState.kt:27-29 | `map` keeps the length and order and applies the function to each element |
| `KotlinStd.HalfTowardZero` | app/src/main/java/com/lightspark/snake/GameState.kt:23 | `boardWidth / 2` rounds toward zero; the remainder is 0 or 1 for non-negative operands and 0 or -1 for negative ones |
| `SnakeGame.RandomDrawIsOnBoard` | app/src/main/java/com/lightspark/snake/GameState.kt:66-71 | a result of `Position.random(w, h)` is exactly a cell with `0 <= x < w` and `0 <= y < h` |
| `SnakeGame.RandomDrawExists` | app/src/main/java/com/lightspark/snake/GameState.kt:66-71 | `Position.random(w, h)` has a result if and only if `w > 0` and `h > 0` |
| `SnakeGame.Initial` | app/src/main/java/com/lightspark/snake/GameState.kt:21-46 | the direction is LEFT or RIGHT, and it is LEFT exactly when the drawn x lies right of the middle (`2x > boardWidth`); the body has `snakeLength` cells (none if `snakeLength <= 0`) |
| `SnakeGame.InitialSnakeShape` | app/src/main/java/com/lightspark/snake/GameState.kt:25-32 | the snake is alive and lies on the drawn row; its columns run `start.x + i` from head to tail for LEFT and `start.x + snakeLength - 1 - i` for RIGHT |
| `SnakeGame.InitialSnakeOrder` | app/src/main/java/com/lightspark/snake/GameState.kt:26-29 | each segment is one step behind the previous one, to the right for LEFT and to the left for RIGHT; the head is the leftmost cell for LEFT and the rightmost for RIGHT |
| `SnakeGame.InitialSnakeOnBoard` | app/src/main/java/com/lightspark/snake/GameState.kt:22-30 | for every possible draw, every segment lies within `[0, boardWidth) x [0, boardHeight)` |
| `SnakeGame.InitialSegmentsDistinct` | app/src/main/java/com/lightspark/snake/GameState.kt:26-29 | no two segments share a cell |
| `SnakeGame.InitialHeadHasRoom` | app/src/main/java/com/lightspark/snake/GameState.kt:22-29 | for `snakeLength >= 1`, the cell ahead of the head in the chosen direction is on the board and not part of the snake; the cell ahead is column `start.x - 1` for LEFT (so `start.x` free columns lie ahead) and column `start.x + snakeLength` for RIGHT (so `boardWidth - snakeLength - start.x` free columns lie ahead) |
| `SnakeGame.InitialFood` | app/src/main/java/com/lightspark/snake/GameState.kt:33-36 | the food is at the second draw, lies on the board and is not eaten |
| `SnakeGame.InitialFoodMayOverlapSnake` | app/src/main/java/com/lightspark/snake/GameState.kt:33-36 | the food draw does not avoid the snake: with draws allowed on a 4x1 board, the food lands on a segment |
| `SnakeGame.InitialScalars` | app/src/main/java/com/lightspark/snake/GameState.kt:37-44 | score 0, not over, not paused, speed 1 and a live snake; the high score and board size are the arguments |
| `SnakeGame.InitialWellFormed` | app/src/main/java/com/lightspark/snake/GameState.kt:21-46 | every board `initial` can build satisfies the shape invariant `WellFormed`: segments on the board, distinct and side by side, food on the board, and a dead snake only when the game is over |
| `SnakeGame.Update` | app/src/main/java/com/lightspark/snake/GameState.kt:15-18 | `update` returns its receiver unchanged |
| `SnakeGame.UpdateKeepsState` | app/src/main/java/com/lightspark/snake/GameState.kt:15-18 | `update` is idempotent, keeps every field and preserves `WellFormed` |

## Left out

- `MainActivity.kt` is not part of this model. That covers:
  - the Compose UI (canvas drawing, buttons, key codes, the game-over dialog);
  - the coroutine tick loop with its 100 ms delay;
  - the direction buttons, which only `copy` the state with a new direction;
  - the restart, which calls `initial` again with the old high score.
- The distribution of `Position.random` (uniform in Kotlin) is left out. The model quantifies over every possible draw instead.
- The default arguments of `initial` (`snakeLength = 3`, `highScore = 0`) are left out. Every call in the model passes all arguments.
- SnakeGame.Initial: arithmetic is on unbounded integers. The 32-bit `Int` wrap-around of `boardWidth - snakeLength` is not modelled. It only matters for arguments near ±2^31.
- Movement, collision, eating, growth, scoring and high-score updates are not modelled. `update` does not implement any of them yet.
