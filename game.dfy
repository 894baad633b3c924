/**
 * The game controller: board size, food, score, speed tier and the snake,
 * and the rules of one tick (turn filter, collision, move, eat, score, speed).
 */
module Games {
  import opened Wrappers
  import opened Directions
  import opened Vectors
  import opened Commands
  import opened Snakes

  const MaxInterval: nat := 700
  const MinInterval: nat := 200
  const MaxSpeed: nat := 20
  /** Largest `i16`; board sizes are converted to it with a panic above. */
  const I16Max: nat := 32767

  predicate InBoard(v: Vector, width: int, height: int)
  {
    0 <= v.x < width && 0 <= v.y < height
  }

  /** The tick length in milliseconds; `speed > MaxSpeed` underflows the `u16` subtraction. */
  function CalculateInterval(speed: nat): (ms: nat)
    requires speed <= MaxSpeed
    ensures ms == MaxInterval - 25 * speed
    ensures MinInterval <= ms <= MaxInterval
  {
    MinInterval + ((MaxInterval - MinInterval) / MaxSpeed) * (MaxSpeed - speed)
  }

  /** The ramp runs from 700 ms at tier 0 down to 200 ms at tier 20, shorter at every tier. */
  lemma IntervalRamp(s: nat, t: nat)
    requires s < t <= MaxSpeed
    ensures CalculateInterval(0) == 700 && CalculateInterval(MaxSpeed) == 200
    ensures CalculateInterval(s) > CalculateInterval(t)
  {
  }

  /** The heading `gen_range(0, 4)` picks: 0 Up, 1 Right, 2 Down, anything else Left. */
  function StartHeading(roll: int): (d: Direction)
    ensures roll == 0 ==> d == Up
    ensures roll == 1 ==> d == Right
    ensures roll == 2 ==> d == Down
    ensures roll != 0 && roll != 1 && roll != 2 ==> d == Left
  {
    match roll
    case 0 => Up
    case 1 => Right
    case 2 => Down
    case _ => Left
  }

  /** Every heading is drawn by some roll in 0..3. */
  lemma StartHeadingOnto(d: Direction)
    ensures exists roll :: 0 <= roll < 4 && StartHeading(roll) == d
  {
    var roll := match d case Up => 0 case Right => 1 case Down => 2 case Left => 3;
    assert StartHeading(roll) == d;
  }

  /**
   * A turn is taken only if it is neither the tick's locked heading nor its
   * opposite: the accepted turns are exactly the quarter turns.
   */
  predicate TurnAccepted(locked: Direction, towards: Direction): (r: bool)
    ensures r <==> IsVertical(towards) != IsVertical(locked)
  {
    towards != locked && OppositeDirection(locked) != towards
  }

  /**
   * The heading after the commands of one tick, starting from `heading`:
   * each accepted turn overwrites it, rejected turns are ignored, and the
   * first Quit ends the polling, so nothing after it counts.
   */
  function Steered(locked: Direction, heading: Direction, commands: seq<Command>): (r: Direction)
    ensures r == heading || TurnAccepted(locked, r)
    ensures r != heading ==> Turn(r) in commands
    decreases |commands|
  {
    if commands == [] then heading
    else match commands[0]
      case Quit => heading
      case Turn(towards) =>
        Steered(locked, if TurnAccepted(locked, towards) then towards else heading, commands[1..])
  }

  /** Polling splits at any point before a Quit. */
  lemma {:induction false} SteeredAppend(locked: Direction, heading: Direction, a: seq<Command>, b: seq<Command>)
    requires Quit !in a
    ensures Steered(locked, heading, a + b) == Steered(locked, Steered(locked, heading, a), b)
    decreases |a|
  {
    if a == [] {
      assert a + b == b;
    } else {
      assert (a + b)[1..] == a[1..] + b;
      var next := if TurnAccepted(locked, a[0].towards) then a[0].towards else heading;
      SteeredAppend(locked, next, a[1..], b);
    }
  }

  /** The last accepted turn before any Quit wins. */
  lemma LastAcceptedTurnWins(locked: Direction, heading: Direction, commands: seq<Command>, towards: Direction)
    requires Quit !in commands && TurnAccepted(locked, towards)
    ensures Steered(locked, heading, commands + [Turn(towards)]) == towards
  {
    SteeredAppend(locked, heading, commands, [Turn(towards)]);
  }

  /** Commands after the first Quit of a tick are never acted on. */
  lemma {:induction false} SteeredStopsAtQuit(locked: Direction, heading: Direction, a: seq<Command>, b: seq<Command>)
    requires Quit !in a
    ensures Steered(locked, heading, a + [Quit] + b) == Steered(locked, heading, a)
    decreases |a|
  {
    if a == [] {
      assert (a + [Quit] + b)[0] == Quit;
    } else {
      assert (a + [Quit] + b)[1..] == a[1..] + [Quit] + b;
      var next := if TurnAccepted(locked, a[0].towards) then a[0].towards else heading;
      SteeredStopsAtQuit(locked, next, a[1..], b);
    }
  }

  /** Starting from the locked heading, a tick never ends reversed. */
  lemma SteeredNeverReverses(locked: Direction, commands: seq<Command>)
    ensures Steered(locked, locked, commands) != OppositeDirection(locked)
  {
  }

  /**
   * The wall test: the head sits on the border cell the heading points at.
   * For a head on the board, that is exactly when one more step leaves it.
   */
  predicate HasCollidedWithWall(head: Vector, heading: Direction, width: int, height: int): (r: bool)
    ensures InBoard(head, width, height) ==> (r <==> !InBoard(Step(head, heading), width, height))
  {
    match heading
    case Up => head.y == 0
    case Right => head.x == width - 1
    case Down => head.y == height - 1
    case Left => head.x == 0
  }

  /** One cell along the heading, keeping the other coordinate and without clamping. */
  function Step(v: Vector, d: Direction): (r: Vector)
    ensures IsVertical(d) ==> r.x == v.x && (r.y - v.y == 1 || v.y - r.y == 1)
    ensures !IsVertical(d) ==> r.y == v.y && (r.x - v.x == 1 || v.x - r.x == 1)
  {
    match d
    case Up => Vector(v.x, v.y - 1)
    case Right => Vector(v.x + 1, v.y)
    case Down => Vector(v.x, v.y + 1)
    case Left => Vector(v.x - 1, v.y)
  }

  /** Without a wall collision, the next head (as `MoveVectorTo` computes it) is on the board and is not the head. */
  lemma NextHeadOnBoard(head: Vector, heading: Direction, width: int, height: int)
    requires InBoard(head, width, height)
    requires !HasCollidedWithWall(head, heading, width, height)
    ensures InBoard(MoveVectorTo(head, heading, 1), width, height)
    ensures MoveVectorTo(head, heading, 1) != head
  {
    MoveAlongAxis(head, heading, 1);
  }

  /**
   * The self-bite test: the next head lands on a segment other than the
   * current head and the current tail. It leaves the tail out even when the
   * snake is digesting and the tail stays. A bite needs an inner segment,
   * and is the next head being among the inner segments.
   */
  predicate Bites(body: seq<Vector>, heading: Direction): (r: bool)
    requires |body| >= 1
    ensures r <==> |body| >= 3 && MoveVectorTo(body[0], heading, 1) in body[1..|body| - 1]
  {
    exists i :: 0 < i < |body| - 1 && body[i] == MoveVectorTo(body[0], heading, 1)
  }

  /**
   * Without a wall collision, a bite is exactly the next head landing on a
   * segment that a plain (non-digesting) move keeps.
   */
  lemma BitesIffPlainMoveOverlaps(body: seq<Vector>, heading: Direction, width: int, height: int)
    requires |body| >= 2 && InBoard(body[0], width, height)
    requires !HasCollidedWithWall(body[0], heading, width, height)
    ensures Bites(body, heading) <==> Advanced(body, heading, false)[0] in Advanced(body, heading, false)[1..]
  {
    var next := MoveVectorTo(body[0], heading, 1);
    var moved := Advanced(body, heading, false);
    NextHeadOnBoard(body[0], heading, width, height);
    if next in moved[1..] {
      var k :| 0 <= k < |moved[1..]| && moved[1..][k] == next;
      assert body[k] == next;
      assert 0 < k;
    }
    if Bites(body, heading) {
      var i :| 0 < i < |body| - 1 && body[i] == next;
      assert moved[1..][i] == next;
    }
  }

  /**
   * A digesting snake can move its head onto its own tail, which it keeps:
   * the bite test does not see it, and the body then holds a point twice.
   * The body below is reached in play (see `TailOverlapScenario`): it is the
   * snake just after eating at (0, 1), about to turn Right.
   */
  lemma BiteIgnoresKeptTail()
    ensures var body := [Vector(0, 1), Vector(2, 0), Vector(1, 0)];
            !HasCollidedWithWall(body[0], Right, 10, 10) && !Bites(body, Right) &&
            !Distinct(Advanced(body, Right, true))
  {
    var body := [Vector(0, 1), Vector(2, 0), Vector(1, 0)];
    var moved := Advanced(body, Right, true);
    assert moved[0] == Vector(1, 0) == moved[3];
  }

  /** The speed tier after a meal that brought the score to `score`. */
  function SpeedAfterMeal(score: nat, speed: nat, width: nat, height: nat): (r: nat)
    requires width * height / MaxSpeed > 0
    ensures r == speed + 1 <==> score % (width * height / MaxSpeed) == 0
    ensures r == speed || r == speed + 1
  {
    if score % (width * height / MaxSpeed) == 0 then speed + 1 else speed
  }

  /** Division facts for one more point. */
  lemma DivStep(n: nat, k: nat)
    requires k > 0
    ensures (n + 1) % k == 0 ==> (n + 1) / k == n / k + 1
    ensures (n + 1) % k != 0 ==> (n + 1) / k == n / k
  {
    var q, r := n / k, n % k;
    assert n == q * k + r && 0 <= r < k;
    if r + 1 == k {
      assert n + 1 == (q + 1) * k;
      DivUnique(n + 1, k, q + 1, 0);
    } else {
      assert n + 1 == q * k + (r + 1);
      DivUnique(n + 1, k, q, r + 1);
    }
  }

  lemma DivUnique(n: nat, k: nat, q: nat, r: nat)
    requires k > 0 && 0 <= r < k && n == q * k + r
    ensures n / k == q && n % k == r
  {
    MulStrict(n / k, q, k);
    MulStrict(q, n / k, k);
  }

  lemma {:induction false} MulStrict(a: nat, b: nat, k: nat)
    ensures a < b ==> a * k + k <= b * k
    decreases b
  {
    if a < b {
      assert b * k == (b - 1) * k + k;
      MulStrict(a, b - 1, k);
    }
  }

  /**
   * The tier is the score divided by `width * height / 20`: every meal keeps
   * that relation, so the tier rises once per that many meals.
   */
  lemma SpeedFollowsScore(score: nat, speed: nat, width: nat, height: nat)
    requires width * height / MaxSpeed > 0
    requires speed == score / (width * height / MaxSpeed)
    ensures SpeedAfterMeal(score + 1, speed, width, height) == (score + 1) / (width * height / MaxSpeed)
  {
    DivStep(score, width * height / MaxSpeed);
  }

  /** How the game stops running. */
  datatype Outcome =
    | Running   // the tick ended normally; the next one follows
    | Over      // a collision, or a Quit received during the tick
    | Stalled   // no supplied food candidate was free; `place_food` would retry forever

  /**
   * The cell `place_food` settles on: the first candidate, clamped as
   * `Vector::new` does, that the body does not cover; None if all are covered.
   */
  function FirstFree(body: seq<Vector>, candidates: seq<(int, int)>): Option<Vector>
    decreases |candidates|
  {
    if candidates == [] then None
    else if NewVector(candidates[0].0, candidates[0].1) !in body then Some(NewVector(candidates[0].0, candidates[0].1))
    else FirstFree(body, candidates[1..])
  }

  /** `FirstFree` finds nothing exactly when every candidate is covered. */
  lemma {:induction false} FirstFreeNone(body: seq<Vector>, candidates: seq<(int, int)>)
    ensures FirstFree(body, candidates).None? <==> forall c :: c in candidates ==> NewVector(c.0, c.1) in body
    decreases |candidates|
  {
    if candidates != [] {
      FirstFreeNone(body, candidates[1..]);
      assert forall c :: c in candidates ==> c == candidates[0] || c in candidates[1..];
    }
  }

  /**
   * What `FirstFree` picks is off the body, and it is the first candidate
   * off the body: every candidate before it is covered.
   */
  lemma {:induction false} FirstFreeIsFirst(body: seq<Vector>, candidates: seq<(int, int)>)
    ensures FirstFree(body, candidates).Some? ==>
              FirstFree(body, candidates).value !in body &&
              exists k :: 0 <= k < |candidates| &&
                FirstFree(body, candidates).value == NewVector(candidates[k].0, candidates[k].1) &&
                forall j :: 0 <= j < k ==> NewVector(candidates[j].0, candidates[j].1) in body
    decreases |candidates|
  {
    if candidates != [] && NewVector(candidates[0].0, candidates[0].1) in body {
      var rest := candidates[1..];
      FirstFreeIsFirst(body, rest);
      if FirstFree(body, rest).Some? {
        var k :| 0 <= k < |rest| && FirstFree(body, rest).value == NewVector(rest[k].0, rest[k].1) &&
                 forall j :: 0 <= j < k ==> NewVector(rest[j].0, rest[j].1) in body;
        assert forall j :: 0 <= j < k + 1 ==> NewVector(candidates[j].0, candidates[j].1) in body by {
          forall j | 0 <= j < k + 1
            ensures NewVector(candidates[j].0, candidates[j].1) in body
          {
            if j > 0 {
              assert candidates[j] == rest[j - 1];
            }
          }
        }
        assert candidates[k + 1] == rest[k];
      }
    }
  }

  /** The fields of a game that a tick may change, as one value. */
  datatype State = State(body: seq<Vector>, direction: Direction, digesting: bool,
                         food: Option<Vector>, score: nat, speed: nat)

  /**
   * The rule of one tick, from state `before` with inputs `round` to state
   * `after` and `outcome`, on a board of `width` by `height`. The heading is
   * the polled one. A wall or bite ends the game and changes nothing else.
   * Otherwise the snake moves once, Quit or not. If the new head is on the
   * food, the snake digests and the food goes to the first free candidate;
   * with none free the tick stalls, and otherwise the score goes up by one and
   * the tier follows it.
   */
  ghost predicate TickStep(width: nat, height: nat, before: State, round: Round, after: State, outcome: Outcome)
  {
    width * height / MaxSpeed > 0 && |before.body| >= 1 &&
    after.direction == Steered(before.direction, before.direction, round.commands) &&
    var hit := HasCollidedWithWall(before.body[0], after.direction, width, height) || Bites(before.body, after.direction);
    var finished := if Quit in round.commands then Over else Running;
    if hit then
      outcome == Over && after == before.(direction := after.direction)
    else
      var moved := Advanced(before.body, after.direction, before.digesting);
      if before.food != Some(moved[0]) then
        outcome == finished && after == before.(body := moved, direction := after.direction, digesting := false)
      else
        var placed := FirstFree(moved, round.candidates);
        if placed.None? then
          outcome == Stalled && after == before.(body := moved, direction := after.direction, digesting := true)
        else
          outcome == finished &&
          after == before.(body := moved, direction := after.direction, digesting := true, food := placed,
                           score := before.score + 1,
                           speed := SpeedAfterMeal(before.score + 1, before.speed, width, height))
  }

  /** A wall or a bite: the game is over and only the heading has changed. */
  lemma TickStepOver(width: nat, height: nat, before: State, round: Round, after: State)
    requires width * height / MaxSpeed > 0 && |before.body| >= 1
    requires after.direction == Steered(before.direction, before.direction, round.commands)
    requires HasCollidedWithWall(before.body[0], after.direction, width, height) || Bites(before.body, after.direction)
    requires after.body == before.body && after.digesting == before.digesting
    requires after.food == before.food && after.score == before.score && after.speed == before.speed
    ensures TickStep(width, height, before, round, after, Over)
  {
  }

  /** A free move that misses the food. */
  lemma TickStepMove(width: nat, height: nat, before: State, round: Round, after: State, outcome: Outcome)
    requires width * height / MaxSpeed > 0 && |before.body| >= 1
    requires after.direction == Steered(before.direction, before.direction, round.commands)
    requires !HasCollidedWithWall(before.body[0], after.direction, width, height) && !Bites(before.body, after.direction)
    requires after.body == Advanced(before.body, after.direction, before.digesting) && !after.digesting
    requires before.food != Some(after.body[0])
    requires after.food == before.food && after.score == before.score && after.speed == before.speed
    requires outcome == if Quit in round.commands then Over else Running
    ensures TickStep(width, height, before, round, after, outcome)
  {
  }

  /** A free move onto the food, with every candidate for the next food covered. */
  lemma TickStepStall(width: nat, height: nat, before: State, round: Round, after: State)
    requires width * height / MaxSpeed > 0 && |before.body| >= 1
    requires after.direction == Steered(before.direction, before.direction, round.commands)
    requires !HasCollidedWithWall(before.body[0], after.direction, width, height) && !Bites(before.body, after.direction)
    requires after.body == Advanced(before.body, after.direction, before.digesting) && after.digesting
    requires before.food == Some(after.body[0]) && FirstFree(after.body, round.candidates).None?
    requires after.food == before.food && after.score == before.score && after.speed == before.speed
    ensures TickStep(width, height, before, round, after, Stalled)
  {
  }

  /** A free move onto the food, which is placed again; the score and the tier follow. */
  lemma TickStepMeal(width: nat, height: nat, before: State, round: Round, after: State, outcome: Outcome)
    requires width * height / MaxSpeed > 0 && |before.body| >= 1
    requires after.direction == Steered(before.direction, before.direction, round.commands)
    requires !HasCollidedWithWall(before.body[0], after.direction, width, height) && !Bites(before.body, after.direction)
    requires after.body == Advanced(before.body, after.direction, before.digesting) && after.digesting
    requires before.food == Some(after.body[0]) && FirstFree(after.body, round.candidates).Some?
    requires after.food == FirstFree(after.body, round.candidates) && after.score == before.score + 1
    requires after.speed == SpeedAfterMeal(before.score + 1, before.speed, width, height)
    requires outcome == if Quit in round.commands then Over else Running
    ensures TickStep(width, height, before, round, after, outcome)
  {
  }

  /** Food, once placed, is not under the snake. */
  predicate FoodClear(s: State)
  {
    s.food.Some? ==> s.food.value !in s.body
  }

  /** The snake and the food are inside the board. */
  predicate WithinBoard(s: State, width: int, height: int)
  {
    (forall v :: v in s.body ==> InBoard(v, width, height)) &&
    (s.food.Some? ==> InBoard(s.food.value, width, height))
  }

  /** The speed tier is the score divided by `width * height / 20`. */
  predicate TierMatches(s: State, width: nat, height: nat)
  {
    width * height / MaxSpeed > 0 && s.speed == s.score / (width * height / MaxSpeed)
  }

  /** A tick that does not stall leaves the food off the body. */
  lemma TickKeepsFoodClear(width: nat, height: nat, before: State, round: Round, after: State, outcome: Outcome)
    requires TickStep(width, height, before, round, after, outcome)
    ensures outcome != Stalled && FoodClear(before) ==> FoodClear(after)
  {
    FirstFreeIsFirst(Advanced(before.body, after.direction, before.digesting), round.candidates);
  }

  /** With candidates on the board, a tick keeps the snake and the food on the board. */
  lemma TickKeepsWithinBoard(width: nat, height: nat, before: State, round: Round, after: State, outcome: Outcome)
    requires TickStep(width, height, before, round, after, outcome)
    requires CandidatesInBoard(round.candidates, width, height)
    ensures WithinBoard(before, width, height) ==> WithinBoard(after, width, height)
  {
    if WithinBoard(before, width, height) && after.body != before.body {
      var moved := Advanced(before.body, after.direction, before.digesting);
      NextHeadOnBoard(before.body[0], after.direction, width, height);
      assert after.body == moved;
      FirstFreeIsFirst(moved, round.candidates);
      if after.food != before.food {
        var k :| 0 <= k < |round.candidates| && after.food.value == NewVector(round.candidates[k].0, round.candidates[k].1);
        assert round.candidates[k] in round.candidates;
      }
    }
  }

  /** A tick keeps the tier equal to the score divided by `width * height / 20`. */
  lemma TickKeepsTierMatch(width: nat, height: nat, before: State, round: Round, after: State, outcome: Outcome)
    requires TickStep(width, height, before, round, after, outcome)
    ensures TierMatches(before, width, height) ==> TierMatches(after, width, height)
  {
    if TierMatches(before, width, height) {
      SpeedFollowsScore(before.score, before.speed, width, height);
    }
  }

  /** A tick's rule fixes its result: equal inputs give equal states and outcomes. */
  lemma TickStepDeterministic(width: nat, height: nat, before: State, round: Round,
                              after1: State, outcome1: Outcome, after2: State, outcome2: Outcome)
    requires TickStep(width, height, before, round, after1, outcome1)
    requires TickStep(width, height, before, round, after2, outcome2)
    ensures after1 == after2 && outcome1 == outcome2
  {
  }

  class Game {
    const width: nat
    const height: nat
    var food: Option<Vector>
    const snake: Snake
    var speed: nat
    var score: nat

    /** The fields a tick may change, as a `State` value. */
    ghost function Current(): State
      reads this, snake
    {
      State(snake.body, snake.direction, snake.digesting, food, score, speed)
    }

    /** The snake never gets shorter than its starting three segments. */
    ghost predicate Valid()
      reads this, snake
    {
      |snake.body| >= 3
    }

    /** Food, once placed, is never under the snake. */
    ghost predicate FoodOffBody()
      reads this, snake
    {
      FoodClear(Current())
    }

    /** The snake and the food are inside the board. */
    ghost predicate OnBoard()
      reads this, snake
    {
      WithinBoard(Current(), width, height)
    }

    /** The speed tier is the score divided by `width * height / 20`. */
    ghost predicate SpeedMatchesScore()
      reads this, snake
    {
      TierMatches(Current(), width, height)
    }

    /**
     * `Game::new`: no food yet, score and tier zero, and a three-segment snake
     * started from the centre `(width / 2, height / 2)` with the rolled heading.
     */
    constructor (width: nat, height: nat, roll: int)
      requires width <= I16Max && height <= I16Max
      ensures Valid() && fresh(snake)
      ensures this.width == width && this.height == height
      ensures snake.body == InitialBody(NewVector(width / 2, height / 2), 3, StartHeading(roll))
      ensures snake.direction == StartHeading(roll) && !snake.digesting
      ensures food == None && speed == 0 && score == 0
      ensures SpeedMatchesScore() <==> width * height / MaxSpeed > 0
    {
      this.width := width;
      this.height := height;
      food := None;
      snake := new Snake(NewVector(width / 2, height / 2), 3, StartHeading(roll));
      speed := 0;
      score := 0;
    }

    /**
     * `place_food`: try the candidates in order and put the food on the first
     * one the snake does not cover. If all are covered the food is left as it
     * was and the result is false (`place_food` keeps drawing forever).
     */
    method PlaceFood(candidates: seq<(int, int)>) returns (placed: bool)
      requires forall c :: c in candidates ==> 0 <= c.0 < width && 0 <= c.1 < height
      modifies this`food
      ensures placed <==> exists c :: c in candidates && NewVector(c.0, c.1) !in snake.body
      ensures placed ==>
                exists k :: 0 <= k < |candidates| &&
                  food == Some(NewVector(candidates[k].0, candidates[k].1)) &&
                  forall j :: 0 <= j < k ==> NewVector(candidates[j].0, candidates[j].1) in snake.body
      ensures placed ==> food.Some? && food.value !in snake.body && InBoard(food.value, width, height)
      ensures !placed ==> food == old(food)
      ensures placed == FirstFree(snake.body, candidates).Some?
      ensures placed ==> food == FirstFree(snake.body, candidates)
    {
      var i := 0;
      while i < |candidates|
        invariant 0 <= i <= |candidates|
        invariant food == old(food)
        invariant forall j :: 0 <= j < i ==> NewVector(candidates[j].0, candidates[j].1) in snake.body
        invariant FirstFree(snake.body, candidates) == FirstFree(snake.body, candidates[i..])
      {
        var v := NewVector(candidates[i].0, candidates[i].1);
        if !snake.Contains(v) {
          food := Some(v);
          assert candidates[i] in candidates;
          return true;
        }
        assert candidates[i..][1..] == candidates[i + 1..];
        i := i + 1;
      }
      assert candidates[i..] == [];
      placed := false;
      forall c | c in candidates
        ensures NewVector(c.0, c.1) in snake.body
      {
        var j :| 0 <= j < |candidates| && candidates[j] == c;
      }
    }

    /**
     * `has_bitten_itself`: copy the body, remove its last and then its first
     * element, and look for the next head among the rest. With fewer than two
     * segments the second removal panics.
     */
    method HasBittenItself() returns (bitten: bool)
      requires |snake.body| >= 2
      ensures bitten == Bites(snake.body, snake.direction)
    {
      var next := MoveVectorTo(snake.Head(), snake.direction, 1);
      var rest := snake.body;
      rest := rest[..|rest| - 1];
      rest := rest[1..];
      bitten := next in rest;
      if bitten {
        var k :| 0 <= k < |rest| && rest[k] == next;
        assert snake.body[k + 1] == next;
      }
      if Bites(snake.body, snake.direction) {
        var i :| 0 < i < |snake.body| - 1 && snake.body[i] == next;
        assert rest[i - 1] == next;
      }
    }

    /**
     * The input poll of one tick: commands are handled in order against the
     * heading `locked` captured at the start of the tick; the first Quit ends
     * the poll.
     */
    method Poll(locked: Direction, commands: seq<Command>) returns (quit: bool)
      modifies snake
      ensures quit <==> Quit in commands
      ensures snake.direction == Steered(locked, old(snake.direction), commands)
      ensures snake.body == old(snake.body) && snake.digesting == old(snake.digesting)
    {
      quit := false;
      var i := 0;
      while i < |commands|
        invariant 0 <= i <= |commands|
        invariant Quit !in commands[..i]
        invariant Steered(locked, old(snake.direction), commands) == Steered(locked, snake.direction, commands[i..])
        invariant snake.body == old(snake.body) && snake.digesting == old(snake.digesting)
      {
        match commands[i]
        case Quit =>
          quit := true;
          break;
        case Turn(towards) =>
          if towards != locked && OppositeDirection(locked) != towards {
            snake.SetDirection(towards);
          }
        assert commands[..i + 1] == commands[..i] + [commands[i]];
        i := i + 1;
      }
      assert !quit ==> commands[..i] == commands;
    }

    /**
     * The meal after a move onto the food: the snake grows, the food is placed
     * again, and the score goes up by one, the tier with it when the new score
     * is a multiple of `width * height / 20`. When no candidate is free, the
     * meal ends after the growth (`place_food` would retry forever).
     */
    method Eat(candidates: seq<(int, int)>) returns (placed: bool)
      requires width * height / MaxSpeed > 0
      requires forall c :: c in candidates ==> 0 <= c.0 < width && 0 <= c.1 < height
      modifies this`food, this`score, this`speed, snake
      ensures snake.body == old(snake.body) && snake.direction == old(snake.direction) && snake.digesting
      ensures placed == FirstFree(snake.body, candidates).Some?
      ensures placed ==> food == FirstFree(snake.body, candidates) && score == old(score) + 1 &&
                         speed == SpeedAfterMeal(old(score) + 1, old(speed), width, height)
      ensures !placed ==> food == old(food) && score == old(score) && speed == old(speed)
    {
      snake.Grow();
      placed := PlaceFood(candidates);
      if placed {
        score := score + 1;
        if score % (width * height / MaxSpeed) == 0 {
          speed := speed + 1;
        }
      }
    }

    /**
     * One pass of the game loop. The poll runs to its end; then, Quit or not,
     * either a collision ends the game with nothing else changed, or the snake
     * moves once and, if its new head is on the food, it grows, the food is
     * placed again, the score goes up by one and the tier may go up.
     */
    method Tick(commands: seq<Command>, candidates: seq<(int, int)>) returns (outcome: Outcome, interval: nat)
      requires Valid()
      requires speed <= MaxSpeed
      requires width * height / MaxSpeed > 0
      requires forall c :: c in candidates ==> 0 <= c.0 < width && 0 <= c.1 < height
      modifies this, snake
      ensures Valid()
      ensures interval == CalculateInterval(old(speed))
      ensures TickStep(width, height, old(Current()), Round(commands, candidates), Current(), outcome)
      ensures outcome != Stalled && old(FoodOffBody()) ==> FoodOffBody()
      ensures old(OnBoard()) ==> OnBoard()
      ensures old(SpeedMatchesScore()) ==> SpeedMatchesScore()
    {
      interval := CalculateInterval(speed);
      ghost var before := Current();
      ghost var round := Round(commands, candidates);
      var locked := snake.direction;
      var quit := Poll(locked, commands);
      ghost var heading := snake.direction;
      var collided := HasCollidedWithWall(snake.Head(), snake.direction, width, height);
      if !collided {
        collided := HasBittenItself();
      }
      if collided {
        outcome := Over;
        TickStepOver(width, height, before, round, Current());
      } else {
        snake.Slither();
        ghost var moved := snake.body;
        outcome := if quit then Over else Running;
        if food.Some? && snake.Head() == food.value {
          var placed := Eat(candidates);
          if !placed {
            outcome := Stalled;
            TickStepStall(width, height, before, round, Current());
          } else {
            TickStepMeal(width, height, before, round, Current(), outcome);
          }
        } else {
          TickStepMove(width, height, before, round, Current(), outcome);
        }
      }
      TickKeepsFoodClear(width, height, before, round, Current(), outcome);
      TickKeepsWithinBoard(width, height, before, round, Current(), outcome);
      TickKeepsTierMatch(width, height, before, round, Current(), outcome);
    }
  }

  /** The inputs of one tick: the commands polled and the food cells drawn. */
  datatype Round = Round(commands: seq<Command>, candidates: seq<(int, int)>)

  /** Why a run stopped. */
  datatype Stop =
    | GameOver        // collision or Quit
    | FoodStalled     // a food placement found no free supplied candidate
    | SpeedOverflow   // the tier passed 20, where the interval computation panics
    | InputExhausted  // the supplied rounds ran out while the game was still running

  predicate CandidatesInBoard(candidates: seq<(int, int)>, width: int, height: int)
  {
    forall c :: c in candidates ==> 0 <= c.0 < width && 0 <= c.1 < height
  }

  /**
   * A record of ticks played: tick `i` started in `states[i]` at a tier of at
   * most 20, read `rounds[i]`, and ended in `states[i + 1]` with `outcomes[i]`.
   */
  ghost predicate Played(width: nat, height: nat, states: seq<State>, rounds: seq<Round>, outcomes: seq<Outcome>)
  {
    |states| == |outcomes| + 1 && |outcomes| <= |rounds| &&
    forall i :: 0 <= i < |outcomes| ==>
      states[i].speed <= MaxSpeed && TickStep(width, height, states[i], rounds[i], states[i + 1], outcomes[i])
  }

  /** A record of ticks played grows by the next tick. */
  lemma PlayedExtend(width: nat, height: nat, states: seq<State>, rounds: seq<Round>, outcomes: seq<Outcome>,
                     after: State, outcome: Outcome)
    requires Played(width, height, states, rounds, outcomes) && |outcomes| < |rounds|
    requires states[|outcomes|].speed <= MaxSpeed
    requires TickStep(width, height, states[|outcomes|], rounds[|outcomes|], after, outcome)
    ensures Played(width, height, states + [after], rounds, outcomes + [outcome])
  {
    var states', outcomes' := states + [after], outcomes + [outcome];
    forall i | 0 <= i < |outcomes'|
      ensures states'[i].speed <= MaxSpeed && TickStep(width, height, states'[i], rounds[i], states'[i + 1], outcomes'[i])
    {
      if i < |outcomes| {
        assert states'[i] == states[i] && states'[i + 1] == states[i + 1] && outcomes'[i] == outcomes[i];
      }
    }
  }

  /**
   * `run_game`: place the first food, then play ticks until the game is
   * over. The model plays at most one tick per supplied round. `states[0]` is
   * the game after the first food is placed, and tick `i` takes `states[i]`
   * with `rounds[i]` to `states[i + 1]` and `outcomes[i]` by `TickStep`.
   */
  method RunGame(game: Game, opening: seq<(int, int)>, rounds: seq<Round>)
      returns (stop: Stop, ticks: nat, ghost outcomes: seq<Outcome>, ghost states: seq<State>)
    requires game.Valid()
    requires game.width * game.height / MaxSpeed > 0
    requires CandidatesInBoard(opening, game.width, game.height)
    requires forall k :: 0 <= k < |rounds| ==> CandidatesInBoard(rounds[k].candidates, game.width, game.height)
    modifies game, game.snake
    ensures game.Valid()
    ensures ticks <= |rounds| && |outcomes| == ticks && |states| == ticks + 1
    ensures states[0] == old(game.Current()).(food := if FirstFree(old(game.snake.body), opening).Some?
                                                       then FirstFree(old(game.snake.body), opening)
                                                       else old(game.food))
    ensures states[ticks] == game.Current()
    ensures Played(game.width, game.height, states, rounds, outcomes)
    ensures forall i :: 0 <= i < ticks - 1 ==> outcomes[i] == Running
    ensures (stop == FoodStalled && ticks == 0) <==> FirstFree(old(game.snake.body), opening).None?
    ensures stop == GameOver ==> ticks >= 1 && outcomes[ticks - 1] == Over
    ensures stop == FoodStalled ==>
              (ticks == 0 && forall c :: c in opening ==> NewVector(c.0, c.1) in old(game.snake.body)) ||
              (ticks >= 1 && outcomes[ticks - 1] == Stalled)
    ensures stop == SpeedOverflow ==> ticks < |rounds| && game.speed > MaxSpeed
    ensures stop == SpeedOverflow || stop == InputExhausted ==> forall i :: 0 <= i < ticks ==> outcomes[i] == Running
    ensures stop == InputExhausted ==> ticks == |rounds|
    ensures stop != FoodStalled ==> game.food.Some? && game.FoodOffBody()
    ensures old(game.OnBoard()) ==> game.OnBoard()
    ensures old(game.SpeedMatchesScore()) ==> game.SpeedMatchesScore()
  {
    outcomes := [];
    var placed := game.PlaceFood(opening);
    states := [game.Current()];
    if !placed {
      return FoodStalled, 0, outcomes, states;
    }
    ghost var first := game.Current();
    ticks := 0;
    while ticks < |rounds|
      invariant 0 <= ticks <= |rounds| && |outcomes| == ticks && |states| == ticks + 1
      invariant states[0] == first && states[ticks] == game.Current()
      invariant Played(game.width, game.height, states, rounds, outcomes)
      invariant forall i :: 0 <= i < ticks ==> outcomes[i] == Running
      invariant game.Valid() && game.food.Some?
      invariant game.FoodOffBody()
      invariant old(game.OnBoard()) ==> game.OnBoard()
      invariant old(game.SpeedMatchesScore()) ==> game.SpeedMatchesScore()
    {
      if game.speed > MaxSpeed {
        return SpeedOverflow, ticks, outcomes, states;
      }
      var outcome, interval := game.Tick(rounds[ticks].commands, rounds[ticks].candidates);
      PlayedExtend(game.width, game.height, states, rounds, outcomes, game.Current(), outcome);
      outcomes := outcomes + [outcome];
      states := states + [game.Current()];
      ticks := ticks + 1;
      if outcome == Over {
        return GameOver, ticks, outcomes, states;
      }
      if outcome == Stalled {
        return FoodStalled, ticks, outcomes, states;
      }
    }
    return InputExhausted, ticks, outcomes, states;
  }

  /**
   * A game played from the start into the overlap of `BiteIgnoresKeptTail`:
   * on a 10 by 10 board heading Up, the snake turns Right, goes on Right,
   * turns Down onto the food at (0, 1) and then turns Right onto its own
   * kept tail, and the game goes on.
   */
  method TailOverlapScenario() returns (game: Game, last: Outcome)
    ensures fresh(game) && game.Valid() && last == Running
    ensures game.snake.body == [Vector(1, 0), Vector(0, 1), Vector(2, 0), Vector(1, 0)]
    ensures !Distinct(game.snake.body)
  {
    game := ScenarioOpening();
    ScenarioOnward(game);
    last := ScenarioMeal(game);
    assert game.snake.body[0] == game.snake.body[3];
  }

  /** The 10 by 10 game of `TailOverlapScenario` at tier 0, in the given state. */
  ghost predicate ScenarioAt(game: Game, body: seq<Vector>, direction: Direction, digesting: bool, food: Vector, score: nat)
    reads game, game.snake
  {
    game.Valid() && game.width == 10 && game.height == 10 && game.speed == 0 && game.score == score &&
    game.snake.body == body && game.snake.direction == direction && game.snake.digesting == digesting &&
    game.food == Some(food)
  }

  /** A new game heading Up, food at (0, 1), then a turn Right. */
  method ScenarioOpening() returns (game: Game)
    ensures fresh(game) && fresh(game.snake)
    ensures ScenarioAt(game, [Vector(1, 0), Vector(0, 5), Vector(0, 6)], Right, false, Vector(0, 1), 0)
  {
    game := new Game(10, 10, 0);
    assert game.snake.body == [Vector(0, 5), Vector(0, 6), Vector(0, 7)];
    var placed := game.PlaceFood([(0, 1)]);
    assert game.food == Some(Vector(0, 1));
    var outcome, interval := game.Tick([Turn(Right)], []);
  }

  /** A second Right, which the turn filter drops. */
  method ScenarioOnward(game: Game)
    requires ScenarioAt(game, [Vector(1, 0), Vector(0, 5), Vector(0, 6)], Right, false, Vector(0, 1), 0)
    modifies game, game.snake
    ensures ScenarioAt(game, [Vector(2, 0), Vector(1, 0), Vector(0, 5)], Right, false, Vector(0, 1), 0)
  {
    var outcome, interval := game.Tick([Turn(Right)], []);
  }

  /** Down onto the food, which moves off the body, then Right onto the kept tail. */
  method ScenarioMeal(game: Game) returns (last: Outcome)
    requires ScenarioAt(game, [Vector(2, 0), Vector(1, 0), Vector(0, 5)], Right, false, Vector(0, 1), 0)
    modifies game, game.snake
    ensures game.Valid() && game.score == 1 && game.snake.direction == Right && last == Running
    ensures game.snake.body == [Vector(1, 0), Vector(0, 1), Vector(2, 0), Vector(1, 0)]
  {
    var outcome, interval := game.Tick([Turn(Down)], [(5, 5)]);
    assert NewVector(5, 5) == Vector(5, 5) && (5, 5) in [(5, 5)];
    assert game.snake.body == [Vector(0, 1), Vector(2, 0), Vector(1, 0)] && game.snake.digesting;
    last, interval := game.Tick([Turn(Right)], []);
  }

  /** The starting head is the centre with one coordinate zeroed by the move at step 0. */
  lemma NewGameHead(width: nat, height: nat, heading: Direction)
    ensures InitialBody(NewVector(width / 2, height / 2), 3, heading)[0] ==
              if IsVertical(heading) then Vector(0, height / 2) else Vector(width / 2, 0)
  {
    MoveAlongAxis(NewVector(width / 2, height / 2), OppositeDirection(heading), 0);
  }

  /**
   * The starting snake fits on a non-empty board unless it trails off the far
   * side: heading Left needs `width / 2 + 2 < width`, heading Up needs
   * `height / 2 + 2 < height`.
   */
  lemma NewGameOnBoard(width: nat, height: nat, heading: Direction)
    requires width >= 1 && height >= 1
    ensures (forall v :: v in InitialBody(NewVector(width / 2, height / 2), 3, heading) ==> InBoard(v, width, height)) <==>
              (heading == Left ==> width / 2 + 2 < width) &&
              (heading == Up ==> height / 2 + 2 < height)
  {
    var start := NewVector(width / 2, height / 2);
    var body := InitialBody(start, 3, heading);
    forall i | 0 <= i < 3 {
      MoveAlongAxis(start, OppositeDirection(heading), i);
    }
    assert body[2] in body;
  }
}
