/**
 * The rules of the game as transitions on a game-state value: the timed
 * tick, game over, reset, and the key commands (start, pause, speed,
 * direction). The class in game.dfy performs these same transitions in
 * place; this module states and proves what they guarantee.
 */
module Rules {
  import opened Geometry
  import opened Food

  /** Points for each piece of food eaten. */
  const FOOD_REWARD: int := 10
  /** Delay between game over and the automatic reset, in milliseconds. */
  const RESET_DELAY: nat := 2000

  datatype Speed = Slow | Normal | Fast | Ultra

  /** speed_levels: the tick interval of each speed tier, in milliseconds. */
  function Interval(s: Speed): (ms: nat)
    ensures 50 <= ms <= 180
  {
    match s
    case Slow => 180
    case Normal => 130
    case Fast => 80
    case Ultra => 50
  }

  /** The timer a transition leaves pending. */
  datatype Timer =
    | NoTimer               // nothing scheduled
    | TickAfter(ms: nat)    // the next tick, after `ms` milliseconds
    | ResetAfter(ms: nat)   // the reset after game over, after `ms` milliseconds

  /** The fields of the game object that the rules read and write. */
  datatype GameState = GameState(
    snake: seq<Cell>,       // tail first, head last
    direction: Direction,
    score: int,
    highestScore: int,
    started: bool,
    paused: bool,
    speed: Speed,
    food: Cell)

  datatype Outcome = Outcome(state: GameState, timer: Timer)

  const INITIAL_SNAKE: seq<Cell> := [Cell(0, 0), Cell(0, SEGMENT_SIZE), Cell(0, 2 * SEGMENT_SIZE)]

  function Head(snake: seq<Cell>): Cell
    requires |snake| > 0
  {
    snake[|snake| - 1]
  }

  /** Where the head goes on the next tick. */
  function NextHead(s: GameState): Cell
    requires |s.snake| > 0
  {
    Step(Head(s.snake), s.direction)
  }

  /**
   * The collision test, made before the body moves: the new head is on a
   * current body cell (the tail cell included) or beyond a wall.
   */
  predicate Collides(h: Cell, snake: seq<Cell>)
  {
    h in snake || OutOfField(h)
  }

  predicate Running(s: GameState)
  {
    s.started && !s.paused
  }

  /** The tick will eat: it moves without colliding onto a cell within pickup distance of the food. */
  predicate Eats(s: GameState)
    requires |s.snake| > 0
  {
    Running(s) && !Collides(NextHead(s), s.snake) && WithinPickup(NextHead(s), s.food)
  }

  /**
   * The random draws a tick may consume are values the generator can
   * return, and when the tick eats, some draw proposes a cell off the
   * grown body (the food placement loop returns).
   */
  predicate FoodSupplied(s: GameState, draws: seq<Draw>)
    requires |s.snake| > 0
  {
    AllInRange(draws) && (Eats(s) ==> SomeAccepted(draws, s.snake + [NextHead(s)]))
  }

  // ---- Transitions --------------------------------------------------------

  /** game_over: keep the better score, stop the game, and schedule the reset. */
  function GameOver(s: GameState): (o: Outcome)
    ensures !o.state.started && o.timer == ResetAfter(RESET_DELAY)
    ensures o.state.highestScore >= s.highestScore && o.state.highestScore >= s.score
  {
    var best := if s.score > s.highestScore then s.score else s.highestScore;
    Outcome(s.(highestScore := best, started := false), ResetAfter(RESET_DELAY))
  }

  /** move_snake: one timed tick. */
  function Tick(s: GameState, draws: seq<Draw>): (o: Outcome)
    requires |s.snake| > 0 && FoodSupplied(s, draws)
    ensures o.state.highestScore >= s.highestScore
    ensures o.state.direction == s.direction && o.state.paused == s.paused && o.state.speed == s.speed
    ensures o.timer == TickAfter(Interval(s.speed)) <==> o.state.started == s.started
    ensures o.timer != TickAfter(Interval(s.speed)) ==> o.timer == ResetAfter(RESET_DELAY)
  {
    if !Running(s) then
      Outcome(s, TickAfter(Interval(s.speed)))
    else
      var h := NextHead(s);
      if Collides(h, s.snake) then
        GameOver(s)
      else
        var grown := s.snake + [h];
        if WithinPickup(h, s.food) then
          Outcome(s.(snake := grown, score := s.score + FOOD_REWARD, food := FirstAccepted(draws, grown)),
                  TickAfter(Interval(s.speed)))
        else
          Outcome(s.(snake := grown[1..]), TickAfter(Interval(s.speed)))
  }

  /** reset_game: a fresh three-cell snake heading up, score 0, new food; the high score is kept. */
  function Reset(s: GameState, draws: seq<Draw>): (r: GameState)
    requires AllInRange(draws) && SomeAccepted(draws, INITIAL_SNAKE)
    ensures |r.snake| == 3 && r.score == 0 && r.highestScore == s.highestScore
    ensures FoodCell(r.food) && r.food !in r.snake
  {
    s.(snake := INITIAL_SNAKE, direction := Up, score := 0, food := FirstAccepted(draws, INITIAL_SNAKE))
  }

  /** start_game: when not yet started, start and run a tick at once. */
  function StartGame(s: GameState, draws: seq<Draw>): (o: Outcome)
    requires |s.snake| > 0 && (!s.started ==> FoodSupplied(s.(started := true), draws))
    ensures o.state.highestScore >= s.highestScore && o.state.speed == s.speed
    ensures o.timer == NoTimer <==> s.started
  {
    if s.started then Outcome(s, NoTimer)
    else Tick(s.(started := true), draws)
  }

  /** toggle_pause: only a started game can be paused or resumed. */
  function TogglePause(s: GameState): GameState
  {
    if s.started then s.(paused := !s.paused) else s
  }

  /** set_speed: takes effect from the next scheduled tick. */
  function SetSpeed(s: GameState, speed: Speed): GameState
  {
    s.(speed := speed)
  }

  /** set_direction: accepted only while running, and never the reverse of the current direction. */
  function SetDirection(s: GameState, d: Direction): (r: GameState)
    ensures r.direction != Opposite(s.direction)
  {
    if Running(s) && s.direction != Opposite(d) then s.(direction := d) else s
  }

  /** __init__: a game not yet started at normal speed, then reset. */
  function Initial(draws: seq<Draw>): (s: GameState)
    requires AllInRange(draws) && SomeAccepted(draws, INITIAL_SNAKE)
    ensures !s.started && !s.paused && s.speed == Normal && s.score == 0 && s.highestScore == 0
  {
    Reset(GameState([], Up, 0, 0, false, false, Normal, Cell(0, 0)), draws)
  }

  // ---- The invariant of a game in progress --------------------------------

  predicate Distinct(cells: seq<Cell>)
  {
    forall i, j :: 0 <= i < j < |cells| ==> cells[i] != cells[j]
  }

  /** Each cell is one grid step from the next: the body is an unbroken path. */
  predicate Connected(cells: seq<Cell>)
  {
    forall i, j :: 0 <= i && j == i + 1 < |cells| ==> Adjacent(cells[i], cells[j])
  }

  predicate OnBoard(cells: seq<Cell>)
  {
    forall i :: 0 <= i < |cells| ==> GridAligned(cells[i]) && !OutOfField(cells[i])
  }

  /**
   * What holds of every state the game reaches: the body is at least three
   * cells long, on the grid inside the field, never crosses itself and is
   * connected; the food is on a food cell off the body; the score counts
   * the food eaten since the last reset; and only a started game is paused.
   */
  predicate Inv(s: GameState)
  {
    && |s.snake| >= 3
    && OnBoard(s.snake)
    && Distinct(s.snake)
    && Connected(s.snake)
    && FoodCell(s.food) && s.food !in s.snake
    && s.score == FOOD_REWARD * (|s.snake| - 3)
    && s.highestScore >= 0
    && (s.paused ==> s.started)
  }

  lemma InitialSnakeInv()
    ensures |INITIAL_SNAKE| == 3 && OnBoard(INITIAL_SNAKE) && Distinct(INITIAL_SNAKE) && Connected(INITIAL_SNAKE)
  {
    var c := INITIAL_SNAKE;
    forall i | 0 <= i < |c|
      ensures c[i] == Cell(0, SEGMENT_SIZE * i) && GridAligned(c[i]) && !OutOfField(c[i])
    {
      if i == 0 {} else if i == 1 {} else {}
    }
    forall i, j | 0 <= i && j == i + 1 < |c|
      ensures Adjacent(c[i], c[j])
    {
      assert c[j] == Step(c[i], Up);
    }
  }

  /** Appending a fresh head one step from the old head keeps the body a distinct, connected path on the board. */
  lemma {:induction false} GrowKeepsShape(cells: seq<Cell>, d: Direction)
    requires |cells| > 0 && OnBoard(cells) && Distinct(cells) && Connected(cells)
    requires Step(Head(cells), d) !in cells && !OutOfField(Step(Head(cells), d))
    ensures OnBoard(cells + [Step(Head(cells), d)]) && Distinct(cells + [Step(Head(cells), d)])
    ensures Connected(cells + [Step(Head(cells), d)])
  {
    var h := Step(Head(cells), d);
    var g := cells + [h];
    StepOnGrid(Head(cells), d);
    StepOpposite(Head(cells), d);
    forall i, j | 0 <= i < j < |g|
      ensures g[i] != g[j]
    {
      if j < |cells| {
        assert g[i] == cells[i] && g[j] == cells[j];
      } else {
        assert g[i] == cells[i] && g[i] in cells;
      }
    }
    forall i, j | 0 <= i && j == i + 1 < |g|
      ensures Adjacent(g[i], g[j])
    {
      if j < |cells| {
        assert g[i] == cells[i] && g[j] == cells[j];
      }
    }
  }

  /** Dropping the tail keeps the body a distinct, connected path on the board. */
  lemma DropTailKeepsShape(cells: seq<Cell>)
    requires |cells| > 0 && OnBoard(cells) && Distinct(cells) && Connected(cells)
    ensures OnBoard(cells[1..]) && Distinct(cells[1..]) && Connected(cells[1..])
  {
    var t := cells[1..];
    forall i, j | 0 <= i < j < |t|
      ensures t[i] != t[j]
    {
      assert t[i] == cells[i + 1] && t[j] == cells[j + 1];
    }
    forall i, j | 0 <= i && j == i + 1 < |t|
      ensures Adjacent(t[i], t[j])
    {
      assert t[i] == cells[i + 1] && t[j] == cells[j + 1];
    }
  }

  // ---- What each transition guarantees -------------------------------------

  /** A tick while paused or not started changes nothing and only reschedules itself. */
  lemma TickWhenIdle(s: GameState, draws: seq<Draw>)
    requires |s.snake| > 0 && FoodSupplied(s, draws)
    requires !Running(s)
    ensures Tick(s, draws) == Outcome(s, TickAfter(Interval(s.speed)))
  {
  }

  /**
   * A tick that collides ends the game: game over happens exactly when the
   * new head is on the body (tail cell included) or beyond a wall; the body
   * is left as it was, the best score is kept, and instead of a next tick
   * the reset is scheduled.
   */
  lemma TickCollision(s: GameState, draws: seq<Draw>)
    requires |s.snake| > 0 && FoodSupplied(s, draws) && Running(s)
    ensures var o := Tick(s, draws);
            !o.state.started <==> Collides(NextHead(s), s.snake)
    ensures var o := Tick(s, draws);
            Collides(NextHead(s), s.snake) ==>
              o.state.snake == s.snake && o.state.score == s.score &&
              o.state.highestScore == (if s.score > s.highestScore then s.score else s.highestScore) &&
              o.timer == ResetAfter(RESET_DELAY)
    ensures var o := Tick(s, draws);
            Collides(NextHead(s), s.snake) ==>
              o.state.(highestScore := s.highestScore, started := s.started) == s
  {
  }

  /**
   * A tick that moves without eating: the new head is the old head plus the
   * direction vector, the old tail is dropped, the length, score and food
   * stay, and the next tick is scheduled at the current speed.
   */
  lemma TickMoves(s: GameState, draws: seq<Draw>)
    requires |s.snake| > 0 && FoodSupplied(s, draws) && Running(s)
    requires !Collides(NextHead(s), s.snake) && !WithinPickup(NextHead(s), s.food)
    ensures var o := Tick(s, draws);
            && Head(o.state.snake) == Cell(Head(s.snake).x + DeltaX(s.direction), Head(s.snake).y + DeltaY(s.direction))
            && o.state.snake == s.snake[1..] + [NextHead(s)]
            && |o.state.snake| == |s.snake|
            && o.state.score == s.score && o.state.food == s.food
            && o.timer == TickAfter(Interval(s.speed))
  {
    assert (s.snake + [NextHead(s)])[1..] == s.snake[1..] + [NextHead(s)];
  }

  /**
   * A tick that eats: on a valid state the head lands exactly on the food;
   * the body grows by the new head, the score goes up by exactly 10, the new
   * food is on a food cell off the grown body, and the next tick is
   * scheduled at the current speed.
   */
  lemma TickEats(s: GameState, draws: seq<Draw>)
    requires Inv(s) && FoodSupplied(s, draws) && Eats(s)
    ensures NextHead(s) == s.food
    ensures var o := Tick(s, draws);
            && o.state.snake == s.snake + [NextHead(s)]
            && |o.state.snake| == |s.snake| + 1
            && o.state.score == s.score + FOOD_REWARD
            && FoodCell(o.state.food) && o.state.food !in o.state.snake
            && o.timer == TickAfter(Interval(s.speed))
  {
    assert GridAligned(Head(s.snake));
    StepOnGrid(Head(s.snake), s.direction);
    PickupIffSameCell(NextHead(s), s.food);
  }

  /** Every tick from a valid state leads to a valid state. */
  lemma TickPreservesInv(s: GameState, draws: seq<Draw>)
    requires Inv(s) && FoodSupplied(s, draws)
    ensures Inv(Tick(s, draws).state)
  {
    if Running(s) {
      var h := NextHead(s);
      if !Collides(h, s.snake) {
        GrowKeepsShape(s.snake, s.direction);
        if !WithinPickup(h, s.food) {
          DropTailKeepsShape(s.snake + [h]);
          assert s.food != h;
          assert s.food !in (s.snake + [h])[1..];
        }
      }
    }
  }

  /** game_over keeps the larger of the two scores, so the high score never goes down, and stops the game. */
  lemma GameOverKeepsBest(s: GameState)
    ensures var r := GameOver(s).state;
            && r.highestScore >= s.highestScore && r.highestScore >= s.score
            && (r.highestScore == s.highestScore || r.highestScore == s.score)
            && !r.started && r.snake == s.snake && r.score == s.score
    ensures GameOver(s).state.(highestScore := s.highestScore, started := s.started) == s
    ensures GameOver(s).timer == ResetAfter(RESET_DELAY)
  {
  }

  lemma GameOverPreservesInv(s: GameState)
    requires Inv(s) && !s.paused
    ensures Inv(GameOver(s).state)
  {
  }

  /** reset_game: the fresh snake, direction up, score 0, food off the snake; the high score is untouched. */
  lemma ResetFresh(s: GameState, draws: seq<Draw>)
    requires AllInRange(draws) && SomeAccepted(draws, INITIAL_SNAKE)
    ensures var r := Reset(s, draws);
            && r.snake == [Cell(0, 0), Cell(0, 20), Cell(0, 40)]
            && r.direction == Up && r.score == 0
            && r.highestScore == s.highestScore
            && FoodCell(r.food) && r.food !in r.snake
            && r.started == s.started && r.paused == s.paused && r.speed == s.speed
  {
  }

  lemma ResetPreservesInv(s: GameState, draws: seq<Draw>)
    requires s.highestScore >= 0 && (s.paused ==> s.started)
    requires AllInRange(draws) && SomeAccepted(draws, INITIAL_SNAKE)
    ensures Inv(Reset(s, draws))
  {
    InitialSnakeInv();
  }

  /** start_game does nothing to a started game; otherwise it starts it and runs a tick at once. */
  lemma StartGameRule(s: GameState, draws: seq<Draw>)
    requires |s.snake| > 0 && (!s.started ==> FoodSupplied(s.(started := true), draws))
    ensures s.started ==> StartGame(s, draws) == Outcome(s, NoTimer)
    ensures !s.started ==> StartGame(s, draws) == Tick(s.(started := true), draws)
  {
  }

  lemma StartGamePreservesInv(s: GameState, draws: seq<Draw>)
    requires Inv(s) && (!s.started ==> FoodSupplied(s.(started := true), draws))
    ensures Inv(StartGame(s, draws).state)
  {
    if !s.started {
      TickPreservesInv(s.(started := true), draws);
    }
  }

  /** toggle_pause flips `paused` exactly when the game is started, and touches nothing else. */
  lemma TogglePauseRule(s: GameState)
    ensures TogglePause(s).paused != s.paused <==> s.started
    ensures TogglePause(s).(paused := s.paused) == s
  {
  }

  /** set_speed changes only the speed tier, whose tick interval is 180, 130, 80 or 50 ms. */
  lemma SetSpeedRule(s: GameState, speed: Speed)
    ensures SetSpeed(s, speed).(speed := s.speed) == s
    ensures SetSpeed(s, speed).speed == speed
  {
  }

  /** After set_speed, every tick that does not end the game is rescheduled at the new tier's interval. */
  lemma SetSpeedPacesTicks(s: GameState, speed: Speed, draws: seq<Draw>)
    requires |s.snake| > 0 && FoodSupplied(s, draws)
    ensures var o := Tick(SetSpeed(s, speed), draws);
            o.timer == TickAfter(Interval(speed)) <==> !(Running(s) && Collides(NextHead(s), s.snake))
  {
  }

  /**
   * set_direction changes nothing unless the game is running; the direction
   * becomes the requested one exactly when that is not the reverse of the
   * current one; and it never becomes the reverse of the current direction.
   */
  lemma SetDirectionRule(s: GameState, d: Direction)
    ensures !Running(s) ==> SetDirection(s, d) == s
    ensures SetDirection(s, d).(direction := s.direction) == s
    ensures Running(s) ==> (SetDirection(s, d).direction == d <==> d != Opposite(s.direction))
    ensures SetDirection(s, d).direction != Opposite(s.direction)
  {
    match d
    case Up =>
    case Down =>
    case Left =>
    case Right =>
  }

  // ---- The event loop -------------------------------------------------------

  /** What can happen between two states: a timer firing or a key press. */
  datatype Event =
    | TickFires(draws: seq<Draw>)       // the pending tick
    | ResetFires(draws: seq<Draw>)      // the pending reset after game over
    | StartKey(draws: seq<Draw>)        // space
    | PauseKey                          // p
    | SpeedKey(speed: Speed)            // 1 to 4
    | ArrowKey(direction: Direction)    // the arrow keys

  predicate Enabled(s: GameState, e: Event)
  {
    match e
    case TickFires(draws) => |s.snake| > 0 && FoodSupplied(s, draws)
    case ResetFires(draws) => AllInRange(draws) && SomeAccepted(draws, INITIAL_SNAKE)
    case StartKey(draws) => |s.snake| > 0 && (!s.started ==> FoodSupplied(s.(started := true), draws))
    case _ => true
  }

  function Apply(s: GameState, e: Event): Outcome
    requires Enabled(s, e)
  {
    match e
    case TickFires(draws) => Tick(s, draws)
    case ResetFires(draws) => Outcome(Reset(s, draws), NoTimer)
    case StartKey(draws) => StartGame(s, draws)
    case PauseKey => Outcome(TogglePause(s), NoTimer)
    case SpeedKey(speed) => Outcome(SetSpeed(s, speed), NoTimer)
    case ArrowKey(d) => Outcome(SetDirection(s, d), NoTimer)
  }

  /** Every event keeps a valid state valid and never lowers the high score. */
  lemma ApplyPreservesInv(s: GameState, e: Event)
    requires Inv(s) && Enabled(s, e)
    ensures Inv(Apply(s, e).state)
    ensures Apply(s, e).state.highestScore >= s.highestScore
  {
    match e
    case TickFires(draws) => TickPreservesInv(s, draws);
    case ResetFires(draws) => ResetPreservesInv(s, draws);
    case StartKey(draws) => StartGamePreservesInv(s, draws);
    case _ =>
  }

  /** Each event of the run is enabled in the state the previous ones lead to. */
  predicate RunEnabled(s: GameState, events: seq<Event>)
    decreases |events|
  {
    |events| == 0 || (Enabled(s, events[0]) && RunEnabled(Apply(s, events[0]).state, events[1..]))
  }

  function Run(s: GameState, events: seq<Event>): GameState
    requires RunEnabled(s, events)
    decreases |events|
  {
    if |events| == 0 then s else Run(Apply(s, events[0]).state, events[1..])
  }

  /** Over any run of events, a valid state stays valid and the high score never goes down. */
  lemma {:induction false} RunPreservesInv(s: GameState, events: seq<Event>)
    requires Inv(s) && RunEnabled(s, events)
    ensures Inv(Run(s, events))
    ensures Run(s, events).highestScore >= s.highestScore
    decreases |events|
  {
    if |events| > 0 {
      var next := Apply(s, events[0]).state;
      ApplyPreservesInv(s, events[0]);
      RunPreservesInv(next, events[1..]);
      assert Run(s, events) == Run(next, events[1..]);
    }
  }

  /** The game object as constructed is valid. */
  lemma InitialInv(draws: seq<Draw>)
    requires AllInRange(draws) && SomeAccepted(draws, INITIAL_SNAKE)
    ensures Inv(Initial(draws))
    ensures !Initial(draws).started && Initial(draws).score == 0 && Initial(draws).highestScore == 0
  {
    ResetPreservesInv(GameState([], Up, 0, 0, false, false, Normal, Cell(0, 0)), draws);
  }

  // ---- Two behaviours the rules allow -------------------------------------

  /**
   * The collision test runs before the tail moves, so heading into the cell
   * the tail is about to leave ends the game: a valid four-cell snake
   * curled into a square and heading down onto its tail.
   */
  lemma TailCellEndsGame(draws: seq<Draw>)
    requires AllInRange(draws)
    ensures var s := GameState(CURLED, Down, 10, 0, true, false, Normal, Cell(100, 100));
            && Inv(s) && NextHead(s) == s.snake[0]
            && !Tick(s, draws).state.started && Tick(s, draws).timer == ResetAfter(RESET_DELAY)
  {
    CurledShape();
    var s := GameState(CURLED, Down, 10, 0, true, false, Normal, Cell(100, 100));
    assert NextHead(s) == Cell(0, 0) == s.snake[0];
    assert Collides(NextHead(s), s.snake) && !Eats(s);
  }

  /** A four-cell body curled into a square, tail at the origin and head just above it. */
  const CURLED: seq<Cell> := [Cell(0, 0), Cell(20, 0), Cell(20, 20), Cell(0, 20)]

  lemma CurledShape()
    ensures OnBoard(CURLED) && Distinct(CURLED) && Connected(CURLED)
  {
    FourCellPath(CURLED);
  }

  lemma FourCellPath(c: seq<Cell>)
    requires |c| == 4 && Adjacent(c[0], c[1]) && Adjacent(c[1], c[2]) && Adjacent(c[2], c[3])
    ensures Connected(c)
  {
  }

  /**
   * Only the current direction is checked against the request, so two
   * direction keys between ticks can reverse the snake: heading up, left
   * then down are both accepted, and the next tick runs into the neck.
   */
  lemma TwoTurnsReverse(s: GameState, draws: seq<Draw>)
    requires Inv(s) && Running(s) && s.direction == Up && FoodSupplied(s.(direction := Down), draws)
    requires Head(s.snake) == Step(s.snake[|s.snake| - 2], Up)
    ensures var t := SetDirection(SetDirection(s, Left), Down);
            && t.direction == Down
            && NextHead(t) == s.snake[|s.snake| - 2]
            && !Tick(t, draws).state.started
  {
    var t := SetDirection(SetDirection(s, Left), Down);
    assert t == s.(direction := Down);
    assert NextHead(t) in s.snake;
  }
}
