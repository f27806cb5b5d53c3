/**
  The renderer of the snake game (View.kt): which sprite each body cell gets, which
  message ends the game, and the list of canvas calls that draw one frame.
 */
module View {
  import opened Engine
  import opened Canvas
  import opened Decimal

  const CellSize := 32
  const Width := 640

  /** The body length at which a finished game counts as won. */
  const WinSize := 60

  const Bricks := BricksPng
  const AppleSprite := SnakePng(0, 192)

  const HeadLeft := SnakePng(192, 64)
  const HeadUp := SnakePng(256, 64)
  const HeadRight := SnakePng(256, 0)
  const HeadDown := SnakePng(192, 0)

  const BodyHorizontal := SnakePng(64, 0)
  const BodyVertical := SnakePng(128, 64)

  const TailRight := SnakePng(256, 128)
  const TailLeft := SnakePng(192, 192)
  const TailDown := SnakePng(192, 128)
  const TailUp := SnakePng(256, 192)

  /** Corner sprites, named by the two sides of the cell their bend joins. */
  const CornerTopRight := SnakePng(0, 64)
  const CornerBottomLeft := SnakePng(128, 0)
  const CornerTopLeft := SnakePng(128, 128)
  const CornerBottomRight := SnakePng(0, 0)

  const WinMessage := Text(500, 540, "You Win", Green, 25)
  const LoseMessage := Text(500, 540, "You Lose", Red, 25)

  /** An image one cell in size, drawn at the pixel position of cell `p`. */
  function CellImage(sprite: Sprite, p: Position): (r: Command)
    ensures DrawnAt(r, p) && r.sprite == sprite
  {
    Image(sprite, p.x * CellSize, p.y * CellSize, 32, 32)
  }

  /** `c` draws some image over exactly the cell `p`. */
  predicate DrawnAt(c: Command, p: Position) {
    c.Image? && c.x == p.x * CellSize && c.y == p.y * CellSize && c.width == CellSize && c.height == CellSize
  }

  // ---------------------------------------------------------------------------
  // Corner classification
  // ---------------------------------------------------------------------------

  /** The turn at `current`, from the difference vectors current - previous and
      next - current, by a guard chain tried in order: the horizontal-first
      turns win over the vertical-first ones, and no guard holding means no turn. */
  function LastDirection(previous: Position, current: Position, next: Position): (r: CornerDirection)
    ensures
      var dx1, dy1, dx2, dy2 := current.x - previous.x, current.y - previous.y, next.x - current.x, next.y - current.y;
      var horizontalFirst := dx1 != 0 && dy2 != 0;
      && (r == RightUp <==> dx1 > 0 && dy2 < 0)
      && (r == RightDown <==> dx1 > 0 && dy2 > 0)
      && (r == LeftUp <==> dx1 < 0 && dy2 < 0)
      && (r == LeftDown <==> dx1 < 0 && dy2 > 0)
      && (r == UpRight <==> !horizontalFirst && dy1 < 0 && dx2 > 0)
      && (r == UpLeft <==> !horizontalFirst && dy1 < 0 && dx2 < 0)
      && (r == DownRight <==> !horizontalFirst && dy1 > 0 && dx2 > 0)
      && (r == DownLeft <==> !horizontalFirst && dy1 > 0 && dx2 < 0)
      && (r == Invalid <==> !horizontalFirst && (dy1 == 0 || dx2 == 0))
  {
    var dx1 := current.x - previous.x;
    var dy1 := current.y - previous.y;
    var dx2 := next.x - current.x;
    var dy2 := next.y - current.y;
    if dx1 > 0 && dy2 < 0 then RightUp
    else if dx1 > 0 && dy2 > 0 then RightDown
    else if dx1 < 0 && dy2 < 0 then LeftUp
    else if dx1 < 0 && dy2 > 0 then LeftDown
    else if dy1 < 0 && dx2 > 0 then UpRight
    else if dy1 < 0 && dx2 < 0 then UpLeft
    else if dy1 > 0 && dx2 > 0 then DownRight
    else if dy1 > 0 && dx2 < 0 then DownLeft
    else Invalid
  }

  /** Only the two difference vectors matter: moving all three cells by the same
      offset does not change the turn. */
  lemma LastDirectionShift(previous: Position, current: Position, next: Position, dx: int, dy: int)
    ensures LastDirection(Shift(previous, dx, dy), Shift(current, dx, dy), Shift(next, dx, dy))
         == LastDirection(previous, current, next)
  {
  }

  /** A horizontal first difference and a vertical second one always give a
      horizontal-first turn, whatever the other two components are. */
  lemma LastDirectionHorizontalFirst(previous: Position, current: Position, next: Position)
    requires current.x != previous.x && next.y != current.y
    ensures LastDirection(previous, current, next) in {RightUp, RightDown, LeftUp, LeftDown}
  {
  }

  /** A vertical-first turn is reported only when every horizontal-first guard failed. */
  lemma LastDirectionVerticalOnlyAfter(previous: Position, current: Position, next: Position)
    requires LastDirection(previous, current, next) in {UpRight, UpLeft, DownRight, DownLeft}
    ensures current.x == previous.x || next.y == current.y
    ensures current.y != previous.y && next.x != current.x
  {
  }

  /** Three cells on one row or one column, a repeated cell included, make no turn. */
  lemma LastDirectionCollinear(previous: Position, current: Position, next: Position)
    requires (previous.y == current.y == next.y) || (previous.x == current.x == next.x)
    ensures LastDirection(previous, current, next) == Invalid
  {
  }

  /** The turn named by its two unit steps: a reference table independent of the guard chain. */
  function Turn(first: Step, second: Step): CornerDirection {
    match (first, second)
    case (Right, Up) => RightUp
    case (Right, Down) => RightDown
    case (Left, Up) => LeftUp
    case (Left, Down) => LeftDown
    case (Up, Right) => UpRight
    case (Up, Left) => UpLeft
    case (Down, Right) => DownRight
    case (Down, Left) => DownLeft
    case _ => Invalid
  }

  /** On a snake's body, where consecutive cells are adjacent, the guard chain names
      the turn its two steps actually make, and reports no turn exactly when the
      two steps are parallel. */
  lemma LastDirectionOfSteps(previous: Position, current: Position, next: Position)
    requires Adjacent(previous, current) && Adjacent(current, next)
    ensures LastDirection(previous, current, next)
         == Turn(StepBetween(previous, current), StepBetween(current, next))
    ensures LastDirection(previous, current, next) == Invalid <==>
              StepBetween(current, next) == StepBetween(previous, current)
              || StepBetween(current, next) == Opposite(StepBetween(previous, current))
  {
    var first, second := StepBetween(previous, current), StepBetween(current, next);
    assert Moved(previous, first) == current && Moved(current, second) == next;
  }

  // ---------------------------------------------------------------------------
  // Corner sprites
  // ---------------------------------------------------------------------------

  /** The corner sprite of each turn, as View.kt writes the table; no turn, no sprite. */
  function CornerSprite(d: CornerDirection): (r: Option<Sprite>)
    ensures r.None? <==> d == Invalid
  {
    match d
    case DownRight => Some(CornerTopRight)
    case DownLeft => Some(CornerBottomRight)
    case UpRight => Some(CornerTopLeft)
    case UpLeft => Some(CornerBottomLeft)
    case RightUp => Some(CornerTopLeft)
    case RightDown => Some(CornerBottomLeft)
    case LeftUp => Some(CornerTopRight)
    case LeftDown => Some(CornerBottomRight)
    case Invalid => None
  }

  /** The corner sprite for the middle of three consecutive cells, if they turn. */
  function CornerImage(previous: Position, current: Position, next: Position): (r: Option<Sprite>)
    ensures r.None? <==> LastDirection(previous, current, next) == Invalid
  {
    CornerSprite(LastDirection(previous, current, next))
  }

  /** The turn each turn shares its sprite with in the table as written. */
  function SpriteTwin(d: CornerDirection): CornerDirection {
    match d
    case UpRight => RightUp
    case RightUp => UpRight
    case UpLeft => RightDown
    case RightDown => UpLeft
    case DownRight => LeftUp
    case LeftUp => DownRight
    case DownLeft => LeftDown
    case LeftDown => DownLeft
    case Invalid => Invalid
  }

  /** Two turns get the same sprite exactly when they are equal or twins. */
  lemma CornerSpriteSharing(a: CornerDirection, b: CornerDirection)
    ensures CornerSprite(a) == CornerSprite(b) <==> a == b || b == SpriteTwin(a)
  {
  }

  /** As written, a bend and the same bend walked the other way get different
      sprites: (0,1) -> (1,1) -> (1,0) and (1,0) -> (1,1) -> (0,1) occupy the same
      three cells, yet one is drawn with the top-left sprite and the other with
      the bottom-right one. */
  lemma CornerImageReversalMismatch()
    ensures CornerImage(Position(0, 1), Position(1, 1), Position(1, 0)) == Some(CornerTopLeft)
    ensures CornerImage(Position(1, 0), Position(1, 1), Position(0, 1)) == Some(CornerBottomRight)
    ensures CornerTopLeft != CornerBottomRight
  {
  }

  /** The corner table with the sprites of UpRight and DownLeft exchanged, so that
      each sprite stands for one pair of sides of the cell. */
  function CornerSpriteCorrected(d: CornerDirection): (r: Option<Sprite>)
    ensures r.None? <==> d == Invalid
    ensures d != UpRight && d != DownLeft ==> r == CornerSprite(d)
  {
    match d
    case UpRight => Some(CornerBottomRight)
    case DownLeft => Some(CornerTopLeft)
    case _ => CornerSprite(d)
  }

  function CornerImageCorrected(previous: Position, current: Position, next: Position): (r: Option<Sprite>)
    ensures r.None? <==> LastDirection(previous, current, next) == Invalid
  {
    CornerSpriteCorrected(LastDirection(previous, current, next))
  }

  /** The sprite of a bend whose two neighbours lie in directions `a` and `b`
      from the cell; none when the neighbours are not at a right angle. */
  function Bend(a: Step, b: Step): Option<Sprite> {
    if {a, b} == {Up, Right} then Some(CornerTopRight)
    else if {a, b} == {Down, Left} then Some(CornerBottomLeft)
    else if {a, b} == {Up, Left} then Some(CornerTopLeft)
    else if {a, b} == {Down, Right} then Some(CornerBottomRight)
    else None
  }

  /** With the corrected table, the sprite of a body cell depends only on the two
      sides of the cell its neighbours are on. */
  lemma CornerImageCorrectedByNeighbours(previous: Position, current: Position, next: Position)
    requires Adjacent(previous, current) && Adjacent(current, next)
    ensures Adjacent(current, previous)
    ensures CornerImageCorrected(previous, current, next)
         == Bend(StepBetween(current, previous), StepBetween(current, next))
  {
    LastDirectionOfSteps(previous, current, next);
    StepBetweenReversed(previous, current);
    var a, b := StepBetween(current, previous), StepBetween(current, next);
    assert {a, b} == {b, a};
  }

  /** With the corrected table, walking a bend either way gives the same sprite. */
  lemma CornerImageCorrectedReversal(previous: Position, current: Position, next: Position)
    requires Adjacent(previous, current) && Adjacent(current, next)
    ensures CornerImageCorrected(previous, current, next) == CornerImageCorrected(next, current, previous)
  {
    CornerImageCorrectedByNeighbours(previous, current, next);
    StepBetweenReversed(previous, current);
    StepBetweenReversed(current, next);
    CornerImageCorrectedByNeighbours(next, current, previous);
    var a, b := StepBetween(current, previous), StepBetween(current, next);
    assert {a, b} == {b, a};
  }

  // ---------------------------------------------------------------------------
  // Straight segments, tail and head
  // ---------------------------------------------------------------------------

  /** The sprite of a body cell that is not a corner: horizontal when it differs
      from the previous cell in x, vertical otherwise. */
  function BodyImage(previous: Position, current: Position): (r: Sprite)
    ensures r == BodyHorizontal <==> current.x != previous.x
    ensures r == BodyVertical <==> current.x == previous.x
  {
    if current.x > previous.x then BodyHorizontal
    else if current.x < previous.x then BodyHorizontal
    else if current.y > previous.y then BodyVertical
    else BodyVertical
  }

  /** Between adjacent cells the straight sprite follows the step between them. */
  lemma BodyImageOfStep(previous: Position, current: Position)
    requires Adjacent(previous, current)
    ensures BodyImage(previous, current) == BodyHorizontal <==> StepBetween(previous, current) in {Left, Right}
  {
  }

  /** The tail sprite, from where the cell before the tail lies: the x comparisons
      are tried before the y comparison, and `TailUp` is the fallback. */
  function TailImage(tail: Position, beforeTail: Position): (r: Sprite)
    ensures r == TailRight <==> tail.x < beforeTail.x
    ensures r == TailLeft <==> tail.x > beforeTail.x
    ensures r == TailDown <==> tail.x == beforeTail.x && tail.y > beforeTail.y
    ensures r == TailUp <==> tail.x == beforeTail.x && tail.y <= beforeTail.y
  {
    if tail.x < beforeTail.x then TailRight
    else if tail.x > beforeTail.x then TailLeft
    else if tail.y > beforeTail.y then TailDown
    else TailUp
  }

  /** The tail sprite by the side of the tail cell its neighbour is on. */
  function TailSprite(neighbour: Step): Sprite {
    match neighbour
    case Right => TailRight
    case Left => TailLeft
    case Up => TailDown
    case Down => TailUp
  }

  /** On a snake's body the tail sprite is fixed by the side the neighbour is on,
      and two different sides give two different sprites. */
  lemma TailImageOfStep(tail: Position, beforeTail: Position, other: Position)
    requires Adjacent(tail, beforeTail) && Adjacent(tail, other)
    ensures TailImage(tail, beforeTail) == TailSprite(StepBetween(tail, beforeTail))
    ensures TailImage(tail, beforeTail) == TailImage(tail, other) <==> beforeTail == other
  {
    assert Moved(tail, StepBetween(tail, beforeTail)) == beforeTail;
    assert Moved(tail, StepBetween(tail, other)) == other;
  }

  /** The head sprite faces the way the snake is heading. */
  function HeadImage(d: HeadDirection): (r: Sprite)
    ensures r == HeadLeft <==> d == MoveLeft
    ensures r == HeadUp <==> d == MoveUp
    ensures r == HeadRight <==> d == MoveRight
    ensures r == HeadDown <==> d == MoveDown
  {
    match d
    case MoveLeft => HeadLeft
    case MoveUp => HeadUp
    case MoveRight => HeadRight
    case MoveDown => HeadDown
  }

  /** Each heading has a sprite of its own. */
  lemma HeadImageInjective(a: HeadDirection, b: HeadDirection)
    ensures HeadImage(a) == HeadImage(b) <==> a == b
  {
  }

  // ---------------------------------------------------------------------------
  // End of game
  // ---------------------------------------------------------------------------

  /** The message drawn at the end of the game: none while the snake can still
      move, then the win message for a body of at least `WinSize` cells and the
      lose message otherwise. */
  function EndMessage(gameOver: bool, bodySize: int): (r: Option<Command>)
    ensures r.None? <==> !gameOver
    ensures r == Some(WinMessage) <==> gameOver && bodySize >= WinSize
    ensures r == Some(LoseMessage) <==> gameOver && bodySize < WinSize
  {
    if gameOver then
      if bodySize >= 60 then Some(WinMessage) else Some(LoseMessage)
    else None
  }

  // ---------------------------------------------------------------------------
  // Drawing a frame
  // ---------------------------------------------------------------------------

  /** The sprite of the body cell `i` that is neither head nor tail: its corner
      sprite if its neighbours make a turn, its straight sprite otherwise. */
  function SegmentImage(body: seq<Position>, i: int): (r: Sprite)
    requires 1 <= i < |body| - 1
    ensures LastDirection(body[i - 1], body[i], body[i + 1]) != Invalid ==>
              CornerImage(body[i - 1], body[i], body[i + 1]) == Some(r)
    ensures LastDirection(body[i - 1], body[i], body[i + 1]) == Invalid ==> r == BodyImage(body[i - 1], body[i])
  {
    match CornerImage(body[i - 1], body[i], body[i + 1])
    case Some(corner) => corner
    case None => BodyImage(body[i - 1], body[i])
  }

  function MiddleDraws(body: seq<Position>): (r: seq<Command>)
    ensures |body| < 2 ==> r == []
    ensures |body| >= 2 ==> |r| == |body| - 2
  {
    if |body| < 2 then []
    else seq(|body| - 2, k requires 0 <= k < |body| - 2 => CellImage(SegmentImage(body, k + 1), body[k + 1]))
  }

  /** The images that draw a snake: head, the cells in between, then the tail. */
  function SnakeDraws(snake: Snake): (r: seq<Command>)
    requires |snake.body| >= 1
    ensures |r| == |snake.body|
  {
    var body := snake.body;
    [CellImage(HeadImage(snake.headDirection), body[0])]
    + MiddleDraws(body)
    + (if |body| > 1 then [CellImage(TailImage(body[|body| - 1], body[|body| - 2]), body[|body| - 1])] else [])
  }

  /** Drawing a snake puts one image on each of its cells, in body order: the head
      sprite on the head, the tail sprite on the last cell of a longer body, and
      the segment sprite on every cell in between. */
  lemma SnakeDrawsAt(snake: Snake, k: int)
    requires |snake.body| >= 1 && 0 <= k < |snake.body|
    ensures DrawnAt(SnakeDraws(snake)[k], snake.body[k])
    ensures k == 0 ==> SnakeDraws(snake)[k].sprite == HeadImage(snake.headDirection)
    ensures 0 < k < |snake.body| - 1 ==> SnakeDraws(snake)[k].sprite == SegmentImage(snake.body, k)
    ensures 0 < k == |snake.body| - 1 ==>
              SnakeDraws(snake)[k].sprite == TailImage(snake.body[k], snake.body[k - 1])
  {
    var body := snake.body;
    var middle := MiddleDraws(body);
    var r := SnakeDraws(snake);
    if 0 < k < |body| - 1 {
      assert r[k] == middle[k - 1];
    } else if 0 < k {
      assert r[k] == CellImage(TailImage(body[|body| - 1], body[|body| - 2]), body[|body| - 1]);
    }
  }

  /** Consecutive cells of the body are adjacent and no cell is met again two steps on. */
  predicate WellFormed(body: seq<Position>) {
    && (forall k :: 0 < k < |body| ==> Adjacent(body[k - 1], body[k]))
    && (forall k :: 1 < k < |body| ==> body[k - 2] != body[k])
  }

  /** On a well-formed body every cell between head and tail is drawn, on a
      straight stretch, with the straight sprite of that stretch's orientation,
      and at a turn with the table's sprite for the turn its two steps make.
      Except for the turns UpRight and DownLeft, that sprite is the bend joining
      the sides its two neighbours are on. */
  lemma SnakeDrawsOfWellFormed(snake: Snake, k: int)
    requires |snake.body| >= 1 && WellFormed(snake.body) && 0 < k < |snake.body| - 1
    ensures
      var body := snake.body;
      var before, after := StepBetween(body[k - 1], body[k]), StepBetween(body[k], body[k + 1]);
      var sprite := SnakeDraws(snake)[k].sprite;
      && (before == after ==> sprite == (if before in {Left, Right} then BodyHorizontal else BodyVertical))
      && (before != after ==> Turn(before, after) != Invalid && CornerSprite(Turn(before, after)) == Some(sprite))
      && (before != after && Turn(before, after) != UpRight && Turn(before, after) != DownLeft ==>
            Adjacent(body[k], body[k - 1]) && Bend(StepBetween(body[k], body[k - 1]), after) == Some(sprite))
  {
    var body := snake.body;
    assert Adjacent(body[k - 1], body[k]) && Adjacent(body[k], body[k + 1]);
    assert body[k - 1] != body[k + 1];
    var before, after := StepBetween(body[k - 1], body[k]), StepBetween(body[k], body[k + 1]);
    assert Moved(body[k - 1], before) == body[k] && Moved(body[k], after) == body[k + 1];
    SnakeDrawsAt(snake, k);
    LastDirectionOfSteps(body[k - 1], body[k], body[k + 1]);
    BodyImageOfStep(body[k - 1], body[k]);
    if before != after {
      assert after != Opposite(before);
      StepBetweenReversed(body[k - 1], body[k]);
      CornerImageCorrectedByNeighbours(body[k - 1], body[k], body[k + 1]);
    }
  }

  /** `drawSnake`: the head, then a loop over the cells strictly between head and
      tail, then the tail when the body has more than one cell. */
  method DrawSnake(snake: Snake) returns (draws: seq<Command>)
    requires |snake.body| >= 1
    ensures draws == SnakeDraws(snake)
  {
    var body := snake.body;
    draws := [CellImage(HeadImage(snake.headDirection), body[0])];
    var i := 1;
    while i < |body| - 1
      invariant 1 <= i <= if |body| > 1 then |body| - 1 else 1
      invariant draws == [CellImage(HeadImage(snake.headDirection), body[0])] + MiddleDraws(body)[..i - 1]
    {
      var current := body[i];
      var previous := body[i - 1];
      var bodyImage := BodyImage(previous, current);
      if i < |body| - 1 {
        var next := body[i + 1];
        var cornerImage := CornerImage(previous, current, next);
        if cornerImage.Some? {
          draws := draws + [CellImage(cornerImage.value, current)];
          assert MiddleDraws(body)[..i] == MiddleDraws(body)[..i - 1] + [MiddleDraws(body)[i - 1]];
          i := i + 1;
          continue;
        }
      }
      draws := draws + [CellImage(bodyImage, current)];
      assert MiddleDraws(body)[..i] == MiddleDraws(body)[..i - 1] + [MiddleDraws(body)[i - 1]];
      i := i + 1;
    }
    assert MiddleDraws(body)[..i - 1] == MiddleDraws(body);
    if |body| > 1 {
      var tail := body[|body| - 1];
      var previousToTail := body[|body| - 2];
      draws := draws + [CellImage(TailImage(tail, previousToTail), tail)];
    }
  }

  function BrickDraws(wall: seq<Position>): (r: seq<Command>)
    ensures |r| == |wall|
  {
    seq(|wall|, k requires 0 <= k < |wall| => CellImage(Bricks, wall[k]))
  }

  /** The apple, when there is one, as one image over its cell. */
  function AppleDraws(apple: Option<Position>): (r: seq<Command>)
    ensures |r| == if apple.Some? then 1 else 0
    ensures apple.Some? ==> DrawnAt(r[0], apple.value) && r[0].sprite == AppleSprite
  {
    match apple
    case None => []
    case Some(p) => [CellImage(AppleSprite, p)]
  }

  function ScoreText(score: int): string {
    "Score: " + IntToString(score)
  }

  function SizeText(size: int): string {
    "Size: " + IntToString(size)
  }

  /** The status bar: its background, then the score and the body size. */
  function BarDraws(score: int, size: int): (r: seq<Command>)
    ensures |r| == 3 && r[0].Rect? && r[0].fill == Rgb(0x2c2c2c)
    ensures r[1].Text? && r[1].x == 150 && r[1].color == White && |r[1].text| > 7 && r[1].text[..7] == "Score: "
    ensures r[2].Text? && r[2].x == 10 && r[2].color == White && |r[2].text| > 6 && r[2].text[..6] == "Size: "
  {
    [ Rect(0, 512, Width, 80, Rgb(0x2c2c2c)),
      Text(150, 540, ScoreText(score), White, 25),
      Text(10, 540, SizeText(size), White, 25) ]
  }

  /** The numbers in the status bar read back as the score and the body size. */
  lemma BarDrawsReadBack(score: int, size: int)
    ensures |ScoreText(score)| > 7 && |SizeText(size)| > 6
    ensures ParseInt(BarDraws(score, size)[1].text[7..]) == score
    ensures ParseInt(BarDraws(score, size)[2].text[6..]) == size
  {
    assert ScoreText(score)[7..] == IntToString(score);
    assert SizeText(size)[6..] == IntToString(size);
    IntRoundTrip(score);
    IntRoundTrip(size);
  }

  /** The end message, if any, as a list of at most one call. */
  function MessageDraws(canMove: bool, size: int): (r: seq<Command>)
    ensures r == [] <==> canMove
    ensures r == [WinMessage] <==> !canMove && size >= WinSize
    ensures r == [LoseMessage] <==> !canMove && size < WinSize
  {
    match EndMessage(!canMove, size)
    case None => []
    case Some(m) => [m]
  }

  /** What a frame draws before the status bar: erase, the bricks, the snake, the apple. */
  function SceneDraws(game: Game): (r: seq<Command>)
    requires |game.snake.body| >= 1
    ensures |r| == 1 + |game.wall| + |game.snake.body| + (if game.apple.Some? then 1 else 0)
    ensures r[0] == Erase
  {
    [Erase] + BrickDraws(game.wall) + SnakeDraws(game.snake) + AppleDraws(game.apple)
  }

  /** One frame: the scene, the status bar and the end message. */
  function GameDraws(game: Game, canMove: bool): (r: seq<Command>)
    requires |game.snake.body| >= 1
    ensures |r| == |SceneDraws(game)| + 3 + (if canMove then 0 else 1)
    ensures r[0] == Erase
  {
    SceneDraws(game) + BarDraws(game.score, |game.snake.body|) + MessageDraws(canMove, |game.snake.body|)
  }

  /** A frame erases the canvas first, then draws one brick per wall cell, in
      the order of the wall. */
  lemma GameDrawsBrickAt(game: Game, canMove: bool, k: int)
    requires |game.snake.body| >= 1 && 0 <= k < |game.wall|
    ensures |GameDraws(game, canMove)| > 1 + |game.wall|
    ensures GameDraws(game, canMove)[0] == Erase
    ensures GameDraws(game, canMove)[1 + k] == CellImage(Bricks, game.wall[k])
  {
    var scene, bricks := SceneDraws(game), BrickDraws(game.wall);
    assert GameDraws(game, canMove)[1 + k] == scene[1 + k];
    assert scene[1 + k] == ([Erase] + bricks)[1 + k] == bricks[k];
  }

  /** After the bricks a frame draws the snake (one image over each body cell, in
      body order, by `SnakeDrawsAt`). */
  lemma GameDrawsSnakeAt(game: Game, canMove: bool, k: int)
    requires 0 <= k < |game.snake.body|
    ensures |GameDraws(game, canMove)| > 1 + |game.wall| + |game.snake.body|
    ensures GameDraws(game, canMove)[1 + |game.wall| + k] == SnakeDraws(game.snake)[k]
  {
    var scene, front := SceneDraws(game), [Erase] + BrickDraws(game.wall);
    assert GameDraws(game, canMove)[1 + |game.wall| + k] == scene[1 + |game.wall| + k];
    assert scene[1 + |game.wall| + k] == (front + SnakeDraws(game.snake))[|front| + k] == SnakeDraws(game.snake)[k];
  }

  /** After the snake comes the apple, when there is one. */
  lemma GameDrawsAppleAt(game: Game, canMove: bool)
    requires |game.snake.body| >= 1 && game.apple.Some?
    ensures |GameDraws(game, canMove)| > 1 + |game.wall| + |game.snake.body|
    ensures GameDraws(game, canMove)[1 + |game.wall| + |game.snake.body|] == CellImage(AppleSprite, game.apple.value)
  {
    var scene, front := SceneDraws(game), [Erase] + BrickDraws(game.wall) + SnakeDraws(game.snake);
    var k := 1 + |game.wall| + |game.snake.body|;
    assert GameDraws(game, canMove)[k] == scene[k];
    assert scene[k] == (front + AppleDraws(game.apple))[|front|] == AppleDraws(game.apple)[0];
  }

  /** The status bar's three calls follow the scene. */
  lemma GameDrawsBarAt(game: Game, canMove: bool, j: int)
    requires |game.snake.body| >= 1 && 0 <= j < 3
    ensures GameDraws(game, canMove)[|SceneDraws(game)| + j] == BarDraws(game.score, |game.snake.body|)[j]
  {
    var scene, bar := SceneDraws(game), BarDraws(game.score, |game.snake.body|);
    assert GameDraws(game, canMove)[|scene| + j] == (scene + bar)[|scene| + j];
  }

  /** No command of `s` writes text. */
  predicate NoText(s: seq<Command>) {
    forall k :: 0 <= k < |s| ==> !s[k].Text?
  }

  /** Everything a frame draws before the status bar is an image or an erase. */
  lemma PrefixHasNoText(game: Game)
    requires |game.snake.body| >= 1
    ensures NoText(SceneDraws(game))
  {
    var bricks, snake, apple := BrickDraws(game.wall), SnakeDraws(game.snake), AppleDraws(game.apple);
    var prefix := SceneDraws(game);
    forall k | 0 <= k < |prefix| ensures !prefix[k].Text? {
      if 1 <= k < 1 + |bricks| {
        assert prefix[k] == bricks[k - 1];
      } else if 1 + |bricks| <= k < 1 + |bricks| + |snake| {
        assert prefix[k] == snake[k - 1 - |bricks|];
        SnakeDrawsAt(game.snake, k - 1 - |bricks|);
      } else if 1 + |bricks| + |snake| <= k {
        assert prefix[k] == apple[k - 1 - |bricks| - |snake|];
      }
    }
  }

  /** A frame shows the win message exactly when the game is over with a body of
      at least `WinSize` cells, the lose message exactly when it is over with a
      shorter one, and neither while the snake can still move. */
  lemma GameDrawsEndMessage(game: Game, canMove: bool)
    requires |game.snake.body| >= 1
    ensures WinMessage in GameDraws(game, canMove) <==> !canMove && |game.snake.body| >= WinSize
    ensures LoseMessage in GameDraws(game, canMove) <==> !canMove && |game.snake.body| < WinSize
  {
    var size := |game.snake.body|;
    var prefix := SceneDraws(game);
    var bar := BarDraws(game.score, size);
    var message := MessageDraws(canMove, size);
    PrefixHasNoText(game);
    MessageOnlyFromEnd(prefix, bar, message, WinMessage);
    MessageOnlyFromEnd(prefix, bar, message, LoseMessage);
  }

  /** A text at x = 500 in `prefix + bar + message` comes from `message`. */
  lemma MessageOnlyFromEnd(prefix: seq<Command>, bar: seq<Command>, message: seq<Command>, m: Command)
    requires NoText(prefix) && |bar| == 3 && bar[0].Rect?
    requires bar[1].Text? && bar[1].x == 150 && bar[2].Text? && bar[2].x == 10
    requires m.Text? && m.x == 500
    ensures m in prefix + bar + message <==> m in message
  {
    var cmds := prefix + bar + message;
    if m in cmds {
      var k :| 0 <= k < |cmds| && cmds[k] == m;
      if k < |prefix| {
        assert false;
      } else if k < |prefix| + 3 {
        assert false;
      }
    }
    if m in message {
      var k :| 0 <= k < |message| && message[k] == m;
      assert cmds[|prefix| + 3 + k] == m;
    }
  }

  /** `drawGame`, with `canMove`, the engine's verdict on whether the snake can
      still move, as a parameter. */
  method DrawGame(game: Game, canMove: bool) returns (cmds: seq<Command>)
    requires |game.snake.body| >= 1
    ensures cmds == GameDraws(game, canMove)
  {
    cmds := [Erase];
    var i := 0;
    while i < |game.wall|
      invariant 0 <= i <= |game.wall|
      invariant cmds == [Erase] + BrickDraws(game.wall)[..i]
    {
      cmds := cmds + [CellImage(Bricks, game.wall[i])];
      assert BrickDraws(game.wall)[..i + 1] == BrickDraws(game.wall)[..i] + [BrickDraws(game.wall)[i]];
      i := i + 1;
    }
    assert BrickDraws(game.wall)[..i] == BrickDraws(game.wall);
    var snakeDraws := DrawSnake(game.snake);
    cmds := cmds + snakeDraws + AppleDraws(game.apple) + BarDraws(game.score, |game.snake.body|);
    if !canMove {
      if |game.snake.body| >= 60 {
        cmds := cmds + [WinMessage];
      } else {
        cmds := cmds + [LoseMessage];
      }
    }
  }
}
