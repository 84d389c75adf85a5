/**
 The snake game's state: the immutable records `GameState`, `Snake`, `Food`,
 `Position` and `Direction`, the construction of a starting board
 (`GameState.initial`) and the per-tick `update`, which so far returns its
 receiver unchanged.

 Each call of `Position.random(width, height)` is an input of the model (a
 "draw"), constrained by `IsRandomDraw` to the cells that call can return, so
 that the lemmas below hold for every possible outcome of the random choices.
 */
module SnakeGame {
  import opened KotlinStd

  datatype Direction = UP | DOWN | LEFT | RIGHT

  datatype Position = Position(x: int, y: int)

  /** The body lists the segments head first. */
  datatype Snake = Snake(body: seq<Position>, dead: bool)

  datatype Food = Food(position: Position, eaten: bool)

  datatype GameState = GameState(
    snake: Snake,
    food: Food,
    score: int,
    gameOver: bool,
    paused: bool,
    direction: Direction,
    speed: int,
    highScore: int,
    boardWidth: int,
    boardHeight: int
  )

  /** The cell lies on a board of the given size. */
  predicate OnBoard(p: Position, width: int, height: int) {
    0 <= p.x < width && 0 <= p.y < height
  }

  /**
   `p` is one of the results `Position.random(width, height)` can return: each
   coordinate is drawn from `0 until width` and `0 until height`.
   */
  predicate IsRandomDraw(p: Position, width: int, height: int) {
    p.x in Until(0, width) && p.y in Until(0, height)
  }

  /** A draw is exactly a cell of the board of that size. */
  lemma RandomDrawIsOnBoard(p: Position, width: int, height: int)
    ensures IsRandomDraw(p, width, height) <==> OnBoard(p, width, height)
  {
    if OnBoard(p, width, height) {
      assert Until(0, width)[p.x] == p.x;
      assert Until(0, height)[p.y] == p.y;
    }
  }

  /**
   `Position.random` has a result exactly when both ranges are non-empty;
   otherwise Kotlin's `IntRange.random()` throws.
   */
  lemma RandomDrawExists(width: int, height: int)
    ensures (exists p :: IsRandomDraw(p, width, height)) <==> width > 0 && height > 0
  {
    if width > 0 && height > 0 {
      RandomDrawIsOnBoard(Position(0, 0), width, height);
    }
    if exists p :: IsRandomDraw(p, width, height) {
      var p :| IsRandomDraw(p, width, height);
      RandomDrawIsOnBoard(p, width, height);
    }
  }

  /** The cell one step from `p` in direction `d`; y grows downwards, as the board is drawn. */
  function Step(p: Position, d: Direction): Position
  {
    match d
    case UP => Position(p.x, p.y - 1)
    case DOWN => Position(p.x, p.y + 1)
    case LEFT => Position(p.x - 1, p.y)
    case RIGHT => Position(p.x + 1, p.y)
  }

  /** The precondition of `initial`: both draws are results `Position.random` can return. */
  predicate ValidDraws(boardWidth: int, boardHeight: int, snakeLength: int, start: Position, foodAt: Position) {
    IsRandomDraw(start, boardWidth - snakeLength, boardHeight) && IsRandomDraw(foodAt, boardWidth, boardHeight)
  }

  /**
   `GameState.initial`: a horizontal snake of `snakeLength` cells starting at
   the drawn cell `start`, heading LEFT when `start` lies right of the middle of
   the board and RIGHT otherwise, with its head at the leading end; food at the
   second draw `foodAt`; fresh scalar fields; `highScore` carried over.
   */
  function Initial(boardWidth: int, boardHeight: int, snakeLength: int, highScore: int, start: Position, foodAt: Position): (g: GameState)
    requires ValidDraws(boardWidth, boardHeight, snakeLength, start, foodAt)
    ensures g.direction == LEFT || g.direction == RIGHT
    ensures g.direction == LEFT <==> 2 * start.x > boardWidth
    ensures |g.snake.body| == if snakeLength > 0 then snakeLength else 0
  {
    var awayFromEdge := if start.x > HalfTowardZero(boardWidth) then LEFT else RIGHT;
    GameState(
      snake := Snake(
        body := if awayFromEdge == LEFT
                then MapSeq(Until(0, snakeLength), (i: int) => Position(start.x + i, start.y))
                else MapSeq(DownTo(snakeLength - 1, 0), (i: int) => Position(start.x + i, start.y)),
        dead := false),
      food := Food(position := foodAt, eaten := false),
      score := 0,
      gameOver := false,
      paused := false,
      direction := awayFromEdge,
      speed := 1,
      highScore := highScore,
      boardWidth := boardWidth,
      boardHeight := boardHeight)
  }

  /** `GameState.update`: not implemented yet in the game, it returns the state it is given. */
  function Update(g: GameState): (r: GameState)
    ensures r == g
  {
    g
  }

  /**
   The shape invariants of a running board: every segment on the board, no two
   segments on the same cell, consecutive segments side by side, food on the
   board, and a dead snake only in a finished game.
   */
  predicate WellFormed(g: GameState) {
    var body := g.snake.body;
    && (forall i :: 0 <= i < |body| ==> OnBoard(body[i], g.boardWidth, g.boardHeight))
    && (forall i, j :: 0 <= i < j < |body| ==> body[i] != body[j])
    && (forall i :: 0 < i < |body| ==> Adjacent(body[i - 1], body[i]))
    && OnBoard(g.food.position, g.boardWidth, g.boardHeight)
    && (g.snake.dead ==> g.gameOver)
  }

  /** `q` is one step from `p` in some direction. */
  predicate Adjacent(p: Position, q: Position) {
    exists d: Direction :: Step(p, d) == q
  }

  /**
   The snake `initial` lays out: `snakeLength` cells (none for a length that is
   not positive) on the row of the draw, at columns `start.x` to
   `start.x + snakeLength - 1`; listed left to right when heading LEFT, right to
   left when heading RIGHT, so the head is always the leading cell; alive.
   */
  lemma InitialSnakeShape(boardWidth: int, boardHeight: int, snakeLength: int, highScore: int, start: Position, foodAt: Position)
    requires ValidDraws(boardWidth, boardHeight, snakeLength, start, foodAt)
    ensures var g := Initial(boardWidth, boardHeight, snakeLength, highScore, start, foodAt);
      && |g.snake.body| == (if snakeLength > 0 then snakeLength else 0)
      && !g.snake.dead
      && (forall i :: 0 <= i < |g.snake.body| ==> g.snake.body[i].y == start.y)
      && (g.direction == LEFT ==> forall i :: 0 <= i < |g.snake.body| ==> g.snake.body[i].x == start.x + i)
      && (g.direction == RIGHT ==> forall i :: 0 <= i < |g.snake.body| ==> g.snake.body[i].x == start.x + snakeLength - 1 - i)
  {
  }

  /**
   Going from head to tail the column grows by one when heading LEFT and shrinks
   by one when heading RIGHT: the head is the leftmost cell of a LEFT snake and
   the rightmost cell of a RIGHT snake.
   */
  lemma InitialSnakeOrder(boardWidth: int, boardHeight: int, snakeLength: int, highScore: int, start: Position, foodAt: Position)
    requires ValidDraws(boardWidth, boardHeight, snakeLength, start, foodAt)
    ensures var g := Initial(boardWidth, boardHeight, snakeLength, highScore, start, foodAt);
      var body := g.snake.body;
      && (forall i :: 0 < i < |body| ==> body[i] == Step(body[i - 1], if g.direction == LEFT then RIGHT else LEFT))
      && (g.direction == LEFT ==> forall i :: 0 <= i < |body| ==> body[0].x <= body[i].x)
      && (g.direction == RIGHT ==> forall i :: 0 <= i < |body| ==> body[i].x <= body[0].x)
  {
  }

  /** Whatever the draws, every segment of the starting snake is on the board. */
  lemma InitialSnakeOnBoard(boardWidth: int, boardHeight: int, snakeLength: int, highScore: int, start: Position, foodAt: Position)
    requires ValidDraws(boardWidth, boardHeight, snakeLength, start, foodAt)
    ensures var g := Initial(boardWidth, boardHeight, snakeLength, highScore, start, foodAt);
      forall i :: 0 <= i < |g.snake.body| ==> OnBoard(g.snake.body[i], boardWidth, boardHeight)
  {
  }

  /** No two segments of the starting snake share a cell. */
  lemma InitialSegmentsDistinct(boardWidth: int, boardHeight: int, snakeLength: int, highScore: int, start: Position, foodAt: Position)
    requires ValidDraws(boardWidth, boardHeight, snakeLength, start, foodAt)
    ensures var g := Initial(boardWidth, boardHeight, snakeLength, highScore, start, foodAt);
      forall i, j :: 0 <= i < j < |g.snake.body| ==> g.snake.body[i] != g.snake.body[j]
  {
  }

  /**
   "Away from the edge": the cell just ahead of the head, in the chosen
   direction, is on the board and not part of the snake, so the first move has
   room. The cell ahead is column `start.x - 1` for LEFT, so columns
   0 to `start.x - 1` (`start.x` of them) are free ahead; it is column
   `start.x + snakeLength` for RIGHT, so `boardWidth - snakeLength - start.x`
   columns are free ahead.
   */
  lemma InitialHeadHasRoom(boardWidth: int, boardHeight: int, snakeLength: int, highScore: int, start: Position, foodAt: Position)
    requires ValidDraws(boardWidth, boardHeight, snakeLength, start, foodAt)
    requires snakeLength >= 1
    ensures var g := Initial(boardWidth, boardHeight, snakeLength, highScore, start, foodAt);
      var ahead := Step(g.snake.body[0], g.direction);
      && OnBoard(ahead, boardWidth, boardHeight)
      && ahead !in g.snake.body
      && (g.direction == LEFT ==> ahead.x == start.x - 1)
      && (g.direction == RIGHT ==> ahead.x == start.x + snakeLength)
  {
  }

  /** The food sits on the second draw, a cell of the board, and is not eaten. */
  lemma InitialFood(boardWidth: int, boardHeight: int, snakeLength: int, highScore: int, start: Position, foodAt: Position)
    requires ValidDraws(boardWidth, boardHeight, snakeLength, start, foodAt)
    ensures var g := Initial(boardWidth, boardHeight, snakeLength, highScore, start, foodAt);
      && g.food.position == foodAt
      && OnBoard(g.food.position, boardWidth, boardHeight)
      && !g.food.eaten
  {
  }

  /** The food draw is independent of the snake: it may land on a segment. */
  lemma InitialFoodMayOverlapSnake()
    ensures var g := Initial(4, 1, 3, 0, Position(0, 0), Position(0, 0));
      ValidDraws(4, 1, 3, Position(0, 0), Position(0, 0)) && g.food.position in g.snake.body
  {
  }

  /** A new game starts at score 0, running, unpaused, at speed 1, keeping the given high score and board size. */
  lemma InitialScalars(boardWidth: int, boardHeight: int, snakeLength: int, highScore: int, start: Position, foodAt: Position)
    requires ValidDraws(boardWidth, boardHeight, snakeLength, start, foodAt)
    ensures var g := Initial(boardWidth, boardHeight, snakeLength, highScore, start, foodAt);
      && g.score == 0 && !g.gameOver && !g.paused && g.speed == 1 && !g.snake.dead
      && g.highScore == highScore && g.boardWidth == boardWidth && g.boardHeight == boardHeight
  {
  }

  /** Every board `initial` can build satisfies the shape invariants. */
  lemma InitialWellFormed(boardWidth: int, boardHeight: int, snakeLength: int, highScore: int, start: Position, foodAt: Position)
    requires ValidDraws(boardWidth, boardHeight, snakeLength, start, foodAt)
    ensures WellFormed(Initial(boardWidth, boardHeight, snakeLength, highScore, start, foodAt))
  {
    InitialSnakeOnBoard(boardWidth, boardHeight, snakeLength, highScore, start, foodAt);
    InitialSegmentsDistinct(boardWidth, boardHeight, snakeLength, highScore, start, foodAt);
    InitialSnakeOrder(boardWidth, boardHeight, snakeLength, highScore, start, foodAt);
    InitialFood(boardWidth, boardHeight, snakeLength, highScore, start, foodAt);
  }

  /** `update` is idempotent and keeps every field, hence every invariant of the state. */
  lemma UpdateKeepsState(g: GameState)
    ensures Update(Update(g)) == Update(g)
    ensures WellFormed(g) ==> WellFormed(Update(g))
    ensures Update(g).snake == g.snake && Update(g).food == g.food && Update(g).score == g.score
    ensures Update(g).gameOver == g.gameOver && Update(g).paused == g.paused && Update(g).direction == g.direction
    ensures Update(g).speed == g.speed && Update(g).highScore == g.highScore
    ensures Update(g).boardWidth == g.boardWidth && Update(g).boardHeight == g.boardHeight
  {
  }
}
