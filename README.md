# Snake game state, modelled in Dafny

This project models the game-state logic of a terminal Snake game written in
Rust. The model covers:

- the four-way `Direction` and the map to its opposite;
- the `Vector` board point, clamped at zero, and a one-step move along a heading;
- the `Snake`: an ordered body with the head at index 0, a heading and a
  `digesting` flag, with its in-place mutators `slither`, `grow` and
  `set_direction`;
- the controller: the tick interval, the per-tick turn filter, wall and
  self-bite detection, one tick's resolution (move, eat, score, speed tier),
  food placement by retrying candidates, the initial state, and the game loop.

Files, one Dafny module each: `direction.dfy` (`Directions`), `vector.dfy`
(`Vectors`), `snake.dfy` (`Snakes`), `game.dfy` (`Games`), `glyph.dfy`
(`Glyphs`, the symbol choice in `draw_snake`), `command.dfy` (`Commands`) and
`wrappers.dfy` (`Wrappers`, an `Option` type).

`Snake` and `Game` are classes, because the Rust code changes their fields
in place. Their methods are specified against pure functions: `Advanced` for
a move, `Steered` for the input poll and `FirstFree` for food placement. One
tick as a whole is the predicate `TickStep`, a relation between two `State`
values (body, heading, digesting flag, food, score and tier). `Tick` ensures
`TickStep` from its old state to its new one. `RunGame` returns the states
and outcomes it passed through, linked tick by tick by `TickStep` (the
predicate `Played`). The lemmas are proved about those functions.

`Game` also has three state predicates. Each is defined on `State` values
(`FoodClear`, `WithinBoard`, `TierMatches`), and a lemma shows that `TickStep`
keeps it. `Tick` and `RunGame` preserve each of them under the condition
given:

- `FoodOffBody`: the food is not under the snake. It is kept by every tick
  that does not stall on food placement, and `RunGame` ends with it unless it
  stops with `FoodStalled`.
- `OnBoard`: the snake and the food are inside the board. It is kept once it
  holds. A new game need not satisfy it, because the starting snake can trail
  off the board (`NewGameOnBoard`).
- `SpeedMatchesScore`: the tier equals the score divided by
  `width * height / 20`. It is kept once it holds, and a new game satisfies it
  on any board where that divisor is positive.

## Behaviour of the code as written

The model follows the Rust code. In three places the code differs from the
natural reading of the game's rules:

1. `move_vector_to` (src/vector.rs:22-29) sets the coordinate it does not
   move to 0. It does not keep it. Up from `(x, y)` gives `(0, max(0, y - 1))`,
   and Right gives `(max(0, x + 1), 0)`. So `Snake::new((5, 5), 3, Right)` lies on row 0
   (`InitialBodyExample`), and a new game's head is not at the board centre
   (`NewGameHead`).
2. A Quit command does not skip the rest of the tick. The `break` at
   src/game.rs:82 only leaves the poll loop. The collision test, the move and
   the eating of that tick still happen. `Tick` states this.
3. The code panics in Rust if one of these is broken, so the model states
   each as a `requires`:
   - `width * height / 20 > 0` (src/game.rs:104);
   - `speed <= 20` (the `u16` subtraction at src/game.rs:162);
   - at least two segments for the self-bite test (src/game.rs:221-222);
   - at least one segment for the head (src/snake.rs:29);
   - board sizes of at most 32767 (the `i16` conversions at src/game.rs:41-42).

Two further consequences of the code are proved:

- The self-bite test always leaves out the tail. It does so even on a
  digesting move, where the tail stays. A digesting snake can therefore move
  onto its own tail and hold one point twice (`BiteIgnoresKeptTail`).
- A new snake's starting segments coincide where the trail is clamped at
  zero (`InitialBodyDistinct`). On a narrow board, a new snake can stick out
  of the board (`NewGameOnBoard`).

Randomness becomes parameters:

- the initial heading is the `roll` given to the `Game` constructor, mapped
  as `gen_range(0, 4)` is;
- food cells are a supplied sequence of candidates inside the board.

The timed key poll becomes the sequence of commands received during a tick.

## Model

| member | source | states |
|---|---|---|
| Directions.OppositeDirection | src/direction.rs:10-19 | the opposite heading is never the heading itself and lies on the same axis |
| Directions.OppositeIsInvolution | src/direction.rs:10-19 | taking the opposite twice gives back the heading |
| Directions.OppositePairs | src/direction.rs:12-15 | `a` maps to `b` exactly when the pair is {Up, Down} or {Right, Left} |
| Directions.OppositeIsInjective | src/direction.rs:10-19 | different headings have different opposites (from the involution) |
| Directions.OppositeIsOnto | src/direction.rs:10-19 | every heading is the opposite of some heading |
| Vectors.NewVector | src/vector.rs:10-15 | both coordinates are non-negative; a non-negative input coordinate is kept and a negative one becomes 0 |
| Vectors.NewVectorIdempotent | src/vector.rs:11-12 | clamping is the identity on non-negative inputs, so clamping twice equals clamping once |
| Vectors.MoveVectorTo | src/vector.rs:18-30 | the result is non-negative; the axis not moved along is 0 (x for Up/Down, y for Right/Left) |
| Vectors.MoveAlongAxis | src/vector.rs:22-29 | Up/Down give `(0, max(0, y ∓ step))`, Right/Left give `(max(0, x ± step), 0)` |
| Vectors.MoveStopsAtZero | src/vector.rs:22-29 | for any non-negative step, Up from y = 0 keeps y = 0 and Left from x = 0 keeps x = 0 |
| Vectors.MoveRoundTrip | src/vector.rs:18-30 | moving n along a heading and n back returns the start iff the other axis is 0 and, for Up/Left, the start is at least n from 0 |
| Snakes.InitialBody | src/snake.rs:12-18 | the body has `length` segments, segment i is `move_vector_to(start, opposite(d), i)`, and all of them lie on one axis line |
| Snakes.InitialBodyExample | src/snake.rs:12-25 | `Snake::new((5,5), 3, Right)` has body `[(5,0), (4,0), (3,0)]` |
| Snakes.InitialBodyDistinct | src/snake.rs:15-18 | the starting segments are pairwise distinct iff the trail does not clamp at 0 (Right needs `x + 1 >= length`, Down needs `y + 1 >= length`) |
| Snakes.Advanced | src/snake.rs:44-57 | after a move the length grows by one iff digesting; the head is one step from the old head; every old segment moves back one place; no other new point appears |
| Snakes.Snake.constructor | src/snake.rs:12-25 | the body is `InitialBody(start, length, d)`, the heading is `d`, and the snake is not digesting |
| Snakes.Snake.Head | src/snake.rs:28-30 | the head is `body[0]` and requires a non-empty body |
| Snakes.Snake.Contains | src/snake.rs:40-42 | true iff some `body[i]` equals the point |
| Snakes.Snake.Slither | src/snake.rs:44-57 | the new body is `Advanced(old body, heading, old digesting)`; the heading is unchanged; digesting becomes false |
| Snakes.Snake.SetDirection | src/snake.rs:59-63 | only the heading changes |
| Snakes.Snake.Grow | src/snake.rs:65-69 | digesting becomes true; body and heading are unchanged, so growth shows only at the next move |
| Games.CalculateInterval | src/game.rs:161-167 | the interval is `700 - 25 * speed` ms, between 200 and 700, and needs speed <= 20 |
| Games.IntervalRamp | src/game.rs:21-23 | 700 ms at tier 0, 200 ms at tier 20, strictly decreasing in between |
| Games.StartHeading | src/game.rs:53-58 | rolls 0, 1, 2 give Up, Right, Down; any other roll gives Left |
| Games.StartHeadingOnto | src/game.rs:53-58 | every heading is drawn by some roll in 0..3 |
| Games.TurnAccepted | src/game.rs:85-87 | a turn is accepted iff it is a quarter turn from the tick's locked heading, i.e. it is neither the locked heading nor its opposite |
| Games.Steered | src/game.rs:77-91 | the heading after a tick's commands is the starting one or an accepted turn, and a changed heading was commanded |
| Games.SteeredAppend | src/game.rs:77-91 | before any Quit, polling two runs of commands equals polling the first and then the second from its result |
| Games.LastAcceptedTurnWins | src/game.rs:84-88 | with no Quit before it, the last accepted turn is the final heading |
| Games.SteeredStopsAtQuit | src/game.rs:80-83 | commands after the first Quit of a tick have no effect |
| Games.SteeredNeverReverses | src/game.rs:74-88 | starting from the locked heading, a tick never ends on its opposite |
| Games.HasCollidedWithWall | src/game.rs:200-212 | for a head on the board, the wall test fires exactly when one unclamped step along the heading leaves the board |
| Games.NextHeadOnBoard | src/game.rs:206-211 | without a wall collision, the next head from `move_vector_to` is on the board and differs from the head |
| Games.Bites | src/game.rs:214-225 | the snake bites itself iff it has at least three segments and the next head is one of the segments strictly between head and tail |
| Games.BitesIffPlainMoveOverlaps | src/game.rs:214-225 | without a wall collision, a bite is exactly the new head landing on a segment that a non-digesting move keeps |
| Games.BiteIgnoresKeptTail | src/game.rs:220-224 | on a 10 by 10 board the digesting body `[(0,1), (2,0), (1,0)]` heading Right hits no wall and passes the bite test, yet its move holds (1,0) twice |
| Games.TailOverlapScenario | src/game.rs:72-111 | that body is reached from a new 10 by 10 game with roll 0 and food at (0,1) by the turns Right, Right, Down; the next turn Right leaves a body with a repeated point and the game still running |
| Games.SpeedAfterMeal | src/game.rs:104-106 | the tier rises by exactly one iff the new score is a multiple of `width * height / 20`, and otherwise stays |
| Games.SpeedFollowsScore | src/game.rs:102-106 | if the tier equals score / (w*h/20) before a meal, it equals the new score / (w*h/20) after it |
| Games.Game.constructor | src/game.rs:38-63 | no food, score 0, tier 0, and a fresh 3-segment snake from `(width/2, height/2)` with the rolled heading |
| Games.NewGameHead | src/game.rs:49-52 | the starting head is `(0, height/2)` for Up/Down and `(width/2, 0)` for Right/Left |
| Games.NewGameOnBoard | src/game.rs:49-52 | the starting snake is on the board iff heading Left has `width/2 + 2 < width` and heading Up has `height/2 + 2 < height` |
| Games.FirstFreeNone | src/game.rs:133-148 | the placement finds no cell exactly when every candidate is covered by the body |
| Games.FirstFreeIsFirst | src/game.rs:133-148 | a cell the placement finds is off the body, comes from a candidate, and every earlier candidate is covered |
| Games.Game.PlaceFood | src/game.rs:133-148 | the food goes on the first candidate not covered by the snake (`FirstFree`); it is then on the board and off the body; if every candidate is covered, the result is false and the food is unchanged |
| Games.Game.HasBittenItself | src/game.rs:214-225 | the result equals `Bites`: the next head equals `body[i]` for some `0 < i < |body| - 1`; requires two segments |
| Games.Game.Poll | src/game.rs:77-91 | returns whether a Quit arrived; the heading becomes `Steered(locked, old heading, commands)`; body and digesting are unchanged |
| Games.Game.Eat | src/game.rs:100-107 | the snake grows with body and heading kept; the food goes to `FirstFree` and the score rises by one, with the tier rising iff the new score is a multiple of w*h/20; with no free candidate, food, score and tier are unchanged |
| Games.Game.Tick | src/game.rs:72-111 | the tick goes from the old to the new state by `TickStep`: the steered heading is kept; a collision ends the game and leaves body, food, score and tier unchanged; otherwise the snake moves exactly once, Quit or not; on eating it digests, the food goes to the first free candidate, and the score rises by 1 with the tier rule; the three invariants are kept; the interval is that of the old tier |
| Games.TickStepDeterministic | src/game.rs:72-111 | the tick rule determines one new state and one outcome from the old state and the inputs |
| Games.TickKeepsFoodClear | src/game.rs:96-107 | a tick that does not stall leaves the food off the body |
| Games.TickKeepsWithinBoard | src/game.rs:93-107 | with food candidates on the board, a tick keeps the body and the food on the board |
| Games.TickKeepsTierMatch | src/game.rs:102-106 | a tick keeps the tier equal to the score divided by w*h/20 |
| Games.RunGame | src/game.rs:66-117 | places the first food (`FirstFree` of the opening candidates), giving the first recorded state; then plays at most one tick per round, each tick taking the recorded state and round to the next state and outcome by `TickStep` at a tier of at most 20, and the last state is the game's; every tick but the last ending Running; FoodStalled with no tick iff the opening food found no free candidate; GameOver means the last tick ended Over; FoodStalled means the opening food found no free candidate or the last tick stalled; SpeedOverflow means the tier passed 20 before a round; InputExhausted means every round was played; unless stalled, the food is off the body; OnBoard and tier-matches-score are kept |
| Glyphs.SnakeColor | src/game.rs:235-239 | the colour is Green iff tier % 3 == 0 and Cyan iff tier % 3 == 1 (Yellow otherwise) |
| Glyphs.SnakeColorPeriod | src/game.rs:235-239 | the colour repeats every three tiers |
| Glyphs.SegmentGlyph | src/game.rs:244-286 | the glyph is one of seven symbols, is 'O' exactly for the head; the tail gets '═' iff it is on its neighbour's row and '║' otherwise; an inner segment gets '║' iff its neighbours share x, else '═' iff they share y, else the corner '╔', '╗' or '╚' iff its neighbours are the cells below and right, below and left, or above and right (as draw_snake computes them), and '╝' otherwise |
| Glyphs.SegmentGlyphSymmetric | src/game.rs:248-273 | an inner segment's glyph is the same when its two neighbours are swapped |
| Glyphs.SnakeGlyphs | src/game.rs:242-286 | one glyph per segment, 'O' for the head and only there; defined unless the body has exactly one segment (where `draw_snake` panics) |

## Left out

- Terminal I/O: `prepare_ui`, `restore_ui`, `render`, `draw_borders`, `draw_background`, `draw_food`, the drawing calls in `draw_snake`, and the final score message. They are I/O into a foreign terminal library, and the glyph and colour choice is all that is modelled of them.
- `get_command` and `wait_for_key_event`: key polling and wall-clock time are I/O. A tick receives its commands as a sequence instead, and the interval is returned but not waited for.
- `rand::thread_rng`: a foreign library. The initial heading roll and the food candidates are parameters.
- The `stdout` and `original_terminal_size` fields of `Game`: they only serve the terminal I/O.
- `get_body_point` and `get_direction` have no members of their own: they copy the `body` and `direction` fields, which the model reads directly.
- `src/command.rs` is not part of this model. `Commands.Command` is defined from how `run_game` uses it.
- `src/main.rs` only starts a game on a 10 by 10 board. That size appears only in `BiteIgnoresKeptTail` and `TailOverlapScenario`.
- Games.Game.Tick: requires `width * height / 20 > 0` on every tick. The Rust code divides by that value only on a tick where food is eaten.
- Games.Game.PlaceFood: `place_food` retries random cells forever. The model tries a finite list of candidates and reports failure when all are covered. `Eat` then stops after the growth, `Tick` reports `Stalled` and `RunGame` reports `FoodStalled`.
- Games.RunGame: `run_game` loops until the game is over. The model stops when the supplied rounds run out (`InputExhausted`). It also stops before a tick whose tier is over 20 (`SpeedOverflow`), where the Rust code would panic in `calculate_interval`.
- Fixed-width integers: coordinates, score, tier and board sizes are unbounded integers. The `i16` additions in `move_vector_to`, the `u16` increments of score and tier, and the `u16` product `width * height` are not checked for overflow. The only bound modelled is the `i16` conversion of the board size in `Game::new`.
