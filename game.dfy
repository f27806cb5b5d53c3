/**
  The entities the renderer reads. They are declared by the game engine, whose own
  source is not part of this model; only the fields and values the renderer uses
  are kept here.
 */
module Engine {

  /** Kotlin's nullable type `T?`. */
  datatype Option<+T> = None | Some(value: T)

  /** A grid cell. `y` grows downwards on the screen, so `Up` means a smaller `y`. */
  datatype Position = Position(x: int, y: int)

  /** The direction the snake's head is facing. */
  datatype HeadDirection = MoveLeft | MoveUp | MoveRight | MoveDown

  /** The turn taken at a body cell: first the step from the previous cell into
      it, then the step from it to the next cell, or `Invalid` when there is no turn. */
  datatype CornerDirection =
    | RightUp | RightDown | LeftUp | LeftDown
    | UpRight | UpLeft | DownRight | DownLeft
    | Invalid

  datatype Snake = Snake(body: seq<Position>, headDirection: HeadDirection)

  /** The fields of the engine's game value that the renderer reads. */
  datatype Game = Game(snake: Snake, wall: seq<Position>, apple: Option<Position>, score: int)

  /** A unit step on the grid, named as it looks on the screen. */
  datatype Step = Left | Right | Up | Down

  function Opposite(s: Step): Step {
    match s
    case Left => Right
    case Right => Left
    case Up => Down
    case Down => Up
  }

  function Abs(n: int): nat {
    if n < 0 then -n else n
  }

  /** Two cells that share a side: consecutive cells of a snake's body are. */
  predicate Adjacent(a: Position, b: Position) {
    Abs(b.x - a.x) + Abs(b.y - a.y) == 1
  }

  /** The step that leads from `a` to the adjacent cell `b`. */
  function StepBetween(a: Position, b: Position): (s: Step)
    requires Adjacent(a, b)
    ensures Moved(a, s) == b
  {
    if b.x > a.x then Right
    else if b.x < a.x then Left
    else if b.y < a.y then Up
    else Down
  }

  /** The cell one step away from `p`. */
  function Moved(p: Position, s: Step): Position {
    match s
    case Left => Position(p.x - 1, p.y)
    case Right => Position(p.x + 1, p.y)
    case Up => Position(p.x, p.y - 1)
    case Down => Position(p.x, p.y + 1)
  }

  /** Seen from `b`, the adjacent cell `a` lies in the opposite direction. */
  lemma StepBetweenReversed(a: Position, b: Position)
    requires Adjacent(a, b)
    ensures Adjacent(b, a) && StepBetween(b, a) == Opposite(StepBetween(a, b))
  {
  }

  function Shift(p: Position, dx: int, dy: int): Position {
    Position(p.x + dx, p.y + dy)
  }
}
