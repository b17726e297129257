/**
 * The game object. Its methods change its fields in place, as the game's
 * event handlers and timer callbacks do; each one is proved to perform the
 * transition of the same name in module Rules and to keep the invariant
 * `Rules.Inv`. The timer a method leaves pending is its result.
 */
module Game {
  import opened Geometry
  import opened Food
  import opened Rules

  class SnakeGame {
    var snake: seq<Cell>            // tail first, head last
    var snakeDirection: Direction
    var score: int
    var highestScore: int
    var gameStarted: bool
    var paused: bool
    var currentSpeed: Speed
    var foodPos: Cell

    /** The fields as a game-state value. */
    function State(): GameState
      reads this
    {
      GameState(snake, snakeDirection, score, highestScore, gameStarted, paused, currentSpeed, foodPos)
    }

    predicate Valid()
      reads this
    {
      Inv(State())
    }

    /** A game not yet started, at normal speed, with a fresh snake and food. */
    constructor (draws: seq<Draw>)
      requires AllInRange(draws) && SomeAccepted(draws, INITIAL_SNAKE)
      ensures Valid() && State() == Initial(draws)
    {
      score := 0;
      highestScore := 0;
      snake := [];
      foodPos := Cell(0, 0);  // placed by the reset below
      snakeDirection := Up;
      gameStarted := false;
      paused := false;
      currentSpeed := Normal;
      new;
      ResetGame(draws);
    }

    /** One timed tick: move, collide, eat or drop the tail, and say which timer follows. */
    method MoveSnake(draws: seq<Draw>) returns (timer: Timer)
      requires Valid() && FoodSupplied(State(), draws)
      modifies this
      ensures Valid()
      ensures Outcome(State(), timer) == Tick(old(State()), draws)
    {
      ghost var before := State();
      TickPreservesInv(before, draws);
      if paused || !gameStarted {
        return TickAfter(Interval(currentSpeed));
      }
      var newHead := Step(snake[|snake| - 1], snakeDirection);
      if newHead in snake || OutOfField(newHead) {
        timer := GameOver();
        return;
      }
      snake := snake + [newHead];
      if WithinPickup(newHead, foodPos) {
        score := score + FOOD_REWARD;
        var tries;
        foodPos, tries := RandomFoodPos(snake, draws);
      } else {
        snake := snake[1..];
      }
      timer := TickAfter(Interval(currentSpeed));
    }

    /** Keep the better score, stop the game, and schedule the reset. */
    method GameOver() returns (timer: Timer)
      modifies this
      ensures Outcome(State(), timer) == Rules.GameOver(old(State()))
      ensures old(Valid() && !paused) ==> Valid()
    {
      if score > highestScore {
        highestScore := score;
      }
      gameStarted := false;
      timer := ResetAfter(RESET_DELAY);
    }

    /** A fresh snake heading up, score 0 and new food; the high score and the flags stay. */
    method ResetGame(draws: seq<Draw>)
      requires highestScore >= 0 && (paused ==> gameStarted)
      requires AllInRange(draws) && SomeAccepted(draws, INITIAL_SNAKE)
      modifies this
      ensures Valid() && State() == Reset(old(State()), draws)
    {
      ResetPreservesInv(State(), draws);
      snake := [Cell(0, 0), Cell(0, SEGMENT_SIZE), Cell(0, SEGMENT_SIZE * 2)];
      snakeDirection := Up;
      score := 0;
      var tries;
      foodPos, tries := RandomFoodPos(snake, draws);
    }

    /** Start a game not yet started and run its first tick at once; otherwise nothing. */
    method StartGame(draws: seq<Draw>) returns (timer: Timer)
      requires Valid() && (!gameStarted ==> FoodSupplied(State().(started := true), draws))
      modifies this
      ensures Valid()
      ensures Outcome(State(), timer) == Rules.StartGame(old(State()), draws)
    {
      if !gameStarted {
        gameStarted := true;
        timer := MoveSnake(draws);
      } else {
        timer := NoTimer;
      }
    }

    method TogglePause()
      requires Valid()
      modifies this
      ensures Valid() && State() == Rules.TogglePause(old(State()))
    {
      if gameStarted {
        paused := !paused;
      }
    }

    method SetSpeed(speed: Speed)
      requires Valid()
      modifies this
      ensures Valid() && State() == Rules.SetSpeed(old(State()), speed)
    {
      currentSpeed := speed;
    }

    method SetDirection(direction: Direction)
      requires Valid()
      modifies this
      ensures Valid() && State() == Rules.SetDirection(old(State()), direction)
    {
      if gameStarted && !paused {
        if snakeDirection != Opposite(direction) {
          snakeDirection := direction;
        }
      }
    }
  }
}
