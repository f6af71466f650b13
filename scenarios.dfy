// Clients of the environment: what follows from reset and step alone.

module Scenarios {
  import opened Snake

  /**
   * After reset, every action in 0..3 turns the direction "RIGHT" into an
   * integer code, which move ignores: the head stays on [100, 50], meets
   * its own copy in snake_body[1] and the episode ends with reward -1.
   */
  method FirstStepAfterReset(act: int) returns (head: Pos, reward: int, done: bool)
    requires ValidAction(act)
    ensures head == Pos(100, 50)
    ensures reward == -1 && done
  {
    var env := new SnakeEnv();
    env.Reset();
    var score;
    reward, done, score := env.Step(act);
    head := env.HeadPos();
    assert env.snakeBody[1] == head;
  }

  /**
   * An action outside 0..3 keeps the direction "RIGHT", so the head does
   * move one cell right; nothing is hit and the episode goes on.
   */
  method FirstStepWithOtherAction(act: int) returns (head: Pos, reward: int, done: bool)
    requires !ValidAction(act)
    ensures head == Pos(110, 50)
    ensures !done && reward in {0, 1}
  {
    var env := new SnakeEnv();
    env.Reset();
    var score;
    reward, done, score := env.Step(act);
    head := env.HeadPos();
    assert !HitsBody(head, env.snakeBody);
  }

  /**
   * Once a valid action has been taken the head is stuck for good: a second
   * step leaves it on [100, 50] and again ends the episode with -1.
   */
  method SecondStepStaysPut(first: int, second: int) returns (head: Pos, reward: int, done: bool)
    requires ValidAction(first)
    ensures head == Pos(100, 50)
    ensures reward == -1 && done
  {
    var env := new SnakeEnv();
    var score;
    reward, done, score := env.Step(first);
    reward, done, score := env.Step(second);
    head := env.HeadPos();
    assert env.snakeBody[1] == head;
  }
}
