# Snake renderer (View.kt), modelled in Dafny

This project models the renderer of a Kotlin snake game. The renderer draws one frame of the game onto a canvas. It has three parts:

- It picks a sprite for every cell of the snake's body. The head sprite follows the heading. The tail sprite follows where the cell before the tail lies. A middle cell gets a corner sprite when its two neighbours make a turn, and a straight sprite otherwise.
- It shows an end message. Once the engine reports that the snake cannot move, the frame shows "You Win" for a body of at least 60 cells and "You Lose" for a shorter one.
- It lays out the frame. In order: erase, one brick per wall cell, the snake, the apple, the status bar (score and size), then the end message.

The classification of turns (`getLastDirection`) and the sprite tables are pure functions here. `drawSnake` and `drawGame` are methods whose loops mirror the Kotlin loops. Instead of calling the canvas library, each method returns the list of calls it would make, as `Canvas.Command` values. Each method is proved equal to a specification function (`View.SnakeDraws`, `View.GameDraws`), and lemmas say what that list contains. The drawing follows the corner table exactly as the source writes it. A corrected table stands beside it (see Findings).

Modules:

- `Engine` (game.dfy) declares what the renderer reads from the game engine: `Position`, `HeadDirection`, `CornerDirection`, `Snake` and `Game`. It also has a small grid vocabulary (`Step`, `Adjacent`, `StepBetween`) for stating properties of real snake bodies, whose consecutive cells share a side.
- `Canvas` (canvas.dfy) holds the drawing calls as values. `Decimal` holds Kotlin's `Int.toString()`, which the status bar texts use.
- `View` (view.dfy) holds the renderer.

The source hard-codes the win threshold as the literal 60 (View.kt:42). The engine's configuration does not supply it. The model names it `WinSize`.

## Model

| member | source | states |
|---|---|---|
| `View.LastDirection` | View.kt:179-196 | The full sign table over dx1 = current.x - previous.x, dy1, dx2 = next.x - current.x and dy2, with priority resolved. RIGHT_UP iff dx1 > 0 and dy2 < 0, and likewise RIGHT_DOWN, LEFT_UP and LEFT_DOWN. UP_RIGHT iff no horizontal-first guard applies (dx1 = 0 or dy2 = 0) and dy1 < 0 and dx2 > 0, and likewise for the other three vertical-first turns. INVALID iff no guard holds. |
| `View.LastDirectionShift` | View.kt:180-183 | The result depends only on the two difference vectors: shifting all three cells by one offset leaves it unchanged. |
| `View.LastDirectionHorizontalFirst` | View.kt:185-189 | When dx1 ≠ 0 and dy2 ≠ 0, the result is RIGHT_UP, RIGHT_DOWN, LEFT_UP or LEFT_DOWN, whatever dy1 and dx2 are. |
| `View.LastDirectionVerticalOnlyAfter` | View.kt:185-193 | An UP_* or DOWN_* result implies that the four horizontal-first guards failed, and that dy1 ≠ 0 and dx2 ≠ 0. |
| `View.LastDirectionCollinear` | View.kt:185-194 | Three cells on one row or one column, including a repeated cell, give INVALID. |
| `View.LastDirectionOfSteps` | View.kt:186-194 | For adjacent cells, the result equals the reference table `Turn` applied to the two unit steps. It is INVALID iff the steps are parallel, in the same or opposite directions. |
| `View.CornerSprite` | View.kt:158-168 | The corner table as written gives no sprite iff the turn is INVALID. |
| `View.CornerImage` | View.kt:156-169 | `getCornerImage` gives no sprite (null) exactly when `getLastDirection` gives INVALID, and a sprite for each of the eight turns. |
| `View.CornerSpriteSharing` | View.kt:159-166 | Two turns get the same sprite iff they are equal or they are one of the pairs UP_RIGHT/RIGHT_UP, UP_LEFT/RIGHT_DOWN, DOWN_RIGHT/LEFT_UP, DOWN_LEFT/LEFT_DOWN. |
| `View.CornerImageReversalMismatch` | View.kt:159-166 | As written, the bend (0,1)→(1,1)→(1,0) gets the top-left sprite. The same three cells walked the other way get the bottom-right sprite (see Findings). |
| `View.CornerSpriteCorrected` | View.kt:158-168 | The corrected table: no sprite iff INVALID, and the same sprite as the source for every turn except UP_RIGHT and DOWN_LEFT. |
| `View.CornerImageCorrected` | View.kt:156-169 | With the corrected table, there is no sprite exactly when the turn is INVALID. |
| `View.CornerImageCorrectedByNeighbours` | View.kt:159-166 | With the corrected table, for adjacent cells, the sprite is `Bend` applied to the two sides of the cell on which its neighbours lie. It depends on nothing else. |
| `View.CornerImageCorrectedReversal` | View.kt:159-166 | With the corrected table, a bend walked either way gets the same sprite. |
| `View.BodyImage` | View.kt:112-117 | The straight sprite is the horizontal one iff current.x ≠ previous.x, and the vertical one iff current.x = previous.x. |
| `View.BodyImageOfStep` | View.kt:112-117 | Between adjacent cells, the straight sprite is horizontal iff the step between them is left or right. |
| `View.TailImage` | View.kt:137-142 | The "right" tail iff tail.x < prev.x, and the "left" tail iff tail.x > prev.x. With equal x, the "down" tail iff tail.y > prev.y, and the "up" tail otherwise. The x tests take precedence. |
| `View.TailImageOfStep` | View.kt:134-142 | On a real body, the tail sprite is fixed by the side of the tail on which its neighbour lies. Neighbours on different sides give different sprites. |
| `View.HeadImage` | View.kt:97-102 | Each heading gets the head sprite facing its way: MOVE_LEFT iff the left head, and likewise for up, right and down. |
| `View.HeadImageInjective` | View.kt:97-102 | Each of the four headings has its own head sprite. |
| `View.EndMessage` | View.kt:40-46 | There is no message while the snake can move. Once it cannot, the message is the win message iff the body has at least 60 cells, and the lose message otherwise. |
| `View.CellImage` | View.kt:104 | A cell image covers exactly its cell, 32 by 32 pixels at 32 times the cell's coordinates, with the sprite it was given. |
| `View.SegmentImage` | View.kt:112-130 | A cell between head and tail gets `getCornerImage`'s sprite when its neighbours turn, and its straight sprite when they do not. What those sprites mean on a real body is stated by `View.SnakeDrawsOfWellFormed`. |
| `View.MiddleDraws` | View.kt:107-131 | The number of calls the loop makes: none for a body shorter than 2, and size − 2 otherwise. `View.SnakeDrawsAt` states what each call draws. |
| `View.SnakeDraws` | View.kt:95-146 | The number of calls: one per body cell. `View.SnakeDrawsAt` states what each call draws. |
| `View.SnakeDrawsAt` | View.kt:95-146 | Image k covers exactly body cell k. The head gets the heading's sprite, the last cell of a longer body gets the tail sprite, and every cell in between gets its segment sprite. |
| `View.SnakeDrawsOfWellFormed` | View.kt:107-131 | Take a body whose consecutive cells are adjacent and that does not double back. A middle cell on a straight stretch gets the straight sprite of that stretch's orientation. At a turn it gets the table's sprite for the turn its two steps make. Except at UP_RIGHT and DOWN_LEFT, that sprite is the bend joining the sides of its two neighbours. |
| `View.DrawSnake` | View.kt:95-146 | The `drawSnake` loop, including its `continue` after a corner, issues exactly the calls of `SnakeDraws`. |
| `View.BrickDraws` | View.kt:28-30 | The number of brick calls: one per wall cell. `View.GameDrawsBrickAt` states what each call draws. |
| `View.AppleDraws` | View.kt:73-77 | One apple image over the apple's cell when there is an apple, and nothing otherwise. |
| `View.BarDraws` | View.kt:84-88 | The status bar is three calls: the 0x2c2c2c background rectangle, then white texts "Score: …" at x = 150 and "Size: …" at x = 10. |
| `View.BarDrawsReadBack` | View.kt:84-88 | The numbers written in the status bar read back as the score and the body size. |
| `View.MessageDraws` | View.kt:39-47 | No call while the snake can move. Once it cannot, a single call: the win message iff the size is at least 60, the lose message otherwise. |
| `View.SceneDraws` | View.kt:24-34 | Everything before the status bar: an erase first, then one call per wall cell, one per body cell, and one more when there is an apple. |
| `View.GameDraws` | View.kt:24-48 | A frame is an erase first, the scene, the three status-bar calls, then one more call once the snake cannot move. |
| `View.GameDrawsBrickAt` | View.kt:24-30 | A frame erases the canvas first. Then the brick for wall cell k is call 1 + k. |
| `View.GameDrawsSnakeAt` | View.kt:24-33 | The snake's images follow the bricks, in body order. |
| `View.GameDrawsAppleAt` | View.kt:33-34 | When there is an apple, its image is the call right after the snake's images, at 1 + wall size + body size. |
| `View.GameDrawsBarAt` | View.kt:36-37 | The three status-bar calls come right after the scene, in order. |
| `View.PrefixHasNoText` | View.kt:24-34 | Nothing drawn before the status bar writes text. |
| `View.GameDrawsEndMessage` | View.kt:24-47 | A frame contains the win message iff the game is over and the body has at least 60 cells. It contains the lose message iff the game is over with a shorter body. While the snake can move it contains neither. |
| `View.DrawGame` | View.kt:24-48 | The `drawGame` sequence, with its loop over the wall, issues exactly the calls of `GameDraws`. |
| `Decimal.NatToString` | View.kt:86-87 | A number's text is a non-empty string of decimal digits with no leading zero. |
| `Decimal.IntToString` | View.kt:86-87 | The text starts with '-' iff the number is negative. Every other character is a digit, and there is no leading zero: the first digit is '0' only when it is the whole text. |
| `Decimal.NatRoundTrip` | View.kt:86-87 | Reading back the digits of a natural number gives that number. |
| `Decimal.IntRoundTrip` | View.kt:86-87 | Reading back the text of any integer gives that integer. |

## Left out

- The game engine is not part of this model: `Game`, `Snake`, `initializeGame`, `updateGame`, `gameWithNewPosition`, `updateDir` and `canMove`, with movement, growth, collisions and random apple and brick spawning. Its source is not among the files modelled. Only the fields the renderer reads are declared.
- `canMove()` is defined by the engine. `View.DrawGame` takes its result as the parameter `canMove`.
- Main.kt is left out: timers (`onTimeProgress`), key handling (`onKeyPressed`) and start-up. Its key mapping depends on the library's key codes. It also sends the up key to MOVE_DOWN, which cannot be judged without the engine.
- The canvas library is not modelled. The drawing calls are returned as values, not performed. The colours GREEN, RED and WHITE are the library's constants, whose numeric values are not modelled.
- Image keys are modelled as `Canvas.Sprite` values (`SnakePng(x, y)` for "snake.png|x,y,64,64"), not as strings.
- `View.DrawSnake` and `View.DrawGame` require a non-empty body. The Kotlin code calls `body.first()`, which throws on an empty list. The model assumes the engine keeps the body non-empty.
- The wall is modelled as a sequence, so bricks are drawn in the wall's iteration order.
- `Decimal.IntToString` works on unbounded integers. Kotlin's 32-bit `Int` range is not modelled; the renderer does no arithmetic on the score or size that could overflow.
- View.LastDirection: coordinates are modelled as unbounded integers. Kotlin's 32-bit wrap-around of `current.x - previous.x` and the other differences is not modelled, because grid cells are small: the playing field is 20 by 16 cells.
- View.CellImage: the pixel products `x * CELL_SIZE` are unbounded too. They would wrap only for coordinates far outside the field.
- The corrected corner table (`View.CornerSpriteCorrected`) is not used by the drawing routines. Those follow the table as written, so the frame shows the mismatch described under Findings.

## Findings

| source | as written | input that shows it | evidently intended | confidence | as-written member | corrected member |
|---|---|---|---|---|---|---|
| View.kt:159-166 | UP_RIGHT gets RIGHT_UP's sprite "snake.png\|128,128,64,64", and DOWN_LEFT gets LEFT_DOWN's sprite "snake.png\|0,0,64,64". Each of these two sprites then stands for two opposite bends. The other two sprites each stand for exactly one pair of cell sides. | Path (0,1)→(1,1)→(1,0) (RIGHT_UP, neighbours on the left and top) gets "128,128". The same three cells as (1,0)→(1,1)→(0,1) (DOWN_LEFT, neighbours on the top and left) get "0,0". | A corner sprite should depend only on the two sides on which the neighbours lie, so UP_RIGHT and DOWN_LEFT should exchange sprites. Which pair of the two is wrong cannot be told from the code; the correction keeps RIGHT_UP and LEFT_DOWN. | medium, not executed | `View.CornerImageReversalMismatch` | `View.CornerImageCorrectedReversal` |
