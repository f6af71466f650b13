// A model of the game rules of the Snake Gym environment: direction
// resolution, head movement, the food test, growth, the terminal-condition
// evaluator and the per-step bookkeeping.  Rendering, the observation image,
// the per-step sleep and the random number generator are not modelled.

module Snake {

  /** Frame width and height in pixels, one grid cell, and the episode length. */
  const FrameSizeX: int := 200
  const FrameSizeY: int := 200
  const Cell: int := 10
  const StepLimit: int := 1000

  /** A position [x, y] in pixels. */
  datatype Pos = Pos(x: int, y: int)

  /**
   * The environment keeps its direction in one variable that holds the
   * name "RIGHT" after a reset but the integer codes 0..3 once an action
   * has been resolved; both kinds of value are kept apart here.
   */
  datatype Direction = Name(name: string) | Code(code: int)

  /** The direction names that movement reacts to. */
  const Compass: set<Direction> := {Name("UP"), Name("DOWN"), Name("LEFT"), Name("RIGHT")}

  /** Action codes: 0 UP, 1 DOWN, 2 LEFT, 3 RIGHT; opposite pairs are 0/1 and 2/3. */
  predicate ValidAction(action: int) { 0 <= action <= 3 }

  function Opposite(action: int): int
    requires ValidAction(action)
  {
    [1, 0, 3, 2][action]
  }

  // ---------------------------------------------------------------------
  // change_direction
  // ---------------------------------------------------------------------

  /**
   * The four sequential tests of change_direction.  A comparison such as
   * `direction != 1` is true of any direction that is not the code 1, so a
   * direction name never blocks an action.
   */
  function ChangeDirection(action: int, direction: Direction): (r: Direction)
    // a valid action is adopted unless it reverses the current code
    ensures ValidAction(action) && direction == Code(Opposite(action)) ==> r == direction
    ensures ValidAction(action) && direction != Code(Opposite(action)) ==> r == Code(action)
    // any other action leaves the direction as it was
    ensures !ValidAction(action) ==> r == direction
    // a code is never turned into its opposite, and a code stays a code
    ensures direction.Code? && ValidAction(direction.code) ==> r != Code(Opposite(direction.code))
    ensures direction.Code? ==> r.Code?
  {
    var d0 := if action == 0 && direction != Code(1) then Code(0) else direction;
    var d1 := if action == 1 && d0 != Code(0) then Code(1) else d0;
    var d2 := if action == 2 && d1 != Code(3) then Code(2) else d1;
    if action == 3 && d2 != Code(2) then Code(3) else d2
  }

  // ---------------------------------------------------------------------
  // move
  // ---------------------------------------------------------------------

  /**
   * The position after the four sequential tests of move.  Only the four
   * direction names move the head; an integer code matches none of them.
   */
  function Moved(direction: Direction, p: Pos): (r: Pos)
    ensures direction == Name("UP") ==> r == Pos(p.x, p.y - Cell)
    ensures direction == Name("DOWN") ==> r == Pos(p.x, p.y + Cell)
    ensures direction == Name("LEFT") ==> r == Pos(p.x - Cell, p.y)
    ensures direction == Name("RIGHT") ==> r == Pos(p.x + Cell, p.y)
    ensures direction !in Compass ==> r == p
    // whatever the direction, at most one coordinate changes, by one cell
    ensures (r.x == p.x && (r.y - p.y) in {-Cell, 0, Cell}) || (r.y == p.y && (r.x - p.x) in {-Cell, Cell})
  {
    var y1 := if direction == Name("UP") then p.y - 10 else p.y;
    var y2 := if direction == Name("DOWN") then y1 + 10 else y1;
    var x1 := if direction == Name("LEFT") then p.x - 10 else p.x;
    var x2 := if direction == Name("RIGHT") then x1 + 10 else x1;
    Pos(x2, y2)
  }

  // ---------------------------------------------------------------------
  // eat: membership in a Python range
  // ---------------------------------------------------------------------

  /** The integers lo, lo+1, ..., hi-1 that a Python range(lo, hi) yields. */
  function PyRange(lo: int, hi: int): (r: seq<int>)
    ensures |r| == if lo < hi then hi - lo else 0
    ensures forall k :: 0 <= k < |r| ==> r[k] == lo + k
    decreases hi - lo
  {
    if lo >= hi then [] else [lo] + PyRange(lo + 1, hi)
  }

  /** Membership in range(lo, hi) is the half-open interval lo <= v < hi. */
  lemma {:induction false} InPyRange(v: int, lo: int, hi: int)
    ensures v in PyRange(lo, hi) <==> lo <= v < hi
    decreases hi - lo
  {
    if lo < hi {
      InPyRange(v, lo + 1, hi);
      assert PyRange(lo, hi) == [lo] + PyRange(lo + 1, hi);
    }
  }

  /** Food lies in the 20-by-20 half-open window around the head. */
  predicate Within(head: Pos, food: Pos)
  {
    head.x - Cell <= food.x < head.x + Cell && head.y - Cell <= food.y < head.y + Cell
  }

  /**
   * Food aligned one cell left of (or above) the head is eaten, food one
   * cell right of (or below) it is not: the window is not symmetric.
   */
  lemma EatWindowIsHalfOpen(head: Pos)
    ensures Within(head, Pos(head.x - Cell, head.y - Cell))
    ensures !Within(head, Pos(head.x + Cell, head.y))
    ensures !Within(head, Pos(head.x, head.y + Cell))
  {
  }

  // ---------------------------------------------------------------------
  // spawn_food / game_over: the frame
  // ---------------------------------------------------------------------

  /** Food coordinates drawn by randrange(1, (frame // 10) * 10). */
  predicate InSpawnRange(p: Pos)
  {
    1 <= p.x < (FrameSizeX / Cell) * Cell && 1 <= p.y < (FrameSizeY / Cell) * Cell
  }

  /** Head positions that game_over accepts. */
  predicate InFrame(p: Pos)
  {
    0 <= p.x <= FrameSizeX - Cell && 0 <= p.y <= FrameSizeY - Cell
  }

  predicate GridAligned(p: Pos)
  {
    p.x % Cell == 0 && p.y % Cell == 0
  }

  /**
   * Every food position that can be spawned is eaten from some grid cell
   * inside the frame, so no food is out of the snake's reach.
   */
  lemma SpawnedFoodIsEdible(food: Pos)
    requires InSpawnRange(food)
    ensures var head := Pos((food.x / Cell) * Cell, (food.y / Cell) * Cell);
            InFrame(head) && GridAligned(head) && Within(head, food)
  {
  }

  /** Some segment other than the head (body[0]) sits at pos. */
  predicate HitsBody(pos: Pos, body: seq<Pos>)
  {
    exists k :: 1 <= k < |body| && body[k] == pos
  }

  /**
   * The verdict of game_over: the wall tests first, then self-collision,
   * then the step limit, which overrides a food reward of the same step.
   */
  function Outcome(head: Pos, body: seq<Pos>, steps: int, reward: int): (r: (int, bool))
    ensures r.1 <==> !InFrame(head) || HitsBody(head, body) || steps >= StepLimit
    ensures r.1 ==> r.0 == (if !InFrame(head) || HitsBody(head, body) then -1 else 0)
    ensures !r.1 ==> r.0 == reward
  {
    if head.x < 0 || head.x > FrameSizeX - Cell then (-1, true)
    else if head.y < 0 || head.y > FrameSizeY - Cell then (-1, true)
    else if HitsBody(head, body) then (-1, true)
    else if steps >= StepLimit then (0, true)
    else (reward, false)
  }

  /** The positions of the body after the new head has been inserted and, if nothing was eaten, the tail popped. */
  function Advanced(head: Pos, body: seq<Pos>, ate: bool): seq<Pos>
    requires |body| >= 1
  {
    if ate then [head] + body else [head] + body[..|body| - 1]
  }

  // ---------------------------------------------------------------------
  // The environment
  // ---------------------------------------------------------------------

  class SnakeEnv {
    /** The head, a two-element list that move updates in place. */
    var snakePos: array<int>
    /** Segments, head first. */
    var snakeBody: seq<Pos>
    var foodPos: Pos
    /** False only between eating the food and respawning it. */
    var foodSpawn: bool
    var direction: Direction
    /** Set to the direction by reset and never read afterwards. */
    var action: Direction
    var score: nat
    var steps: nat

    function HeadPos(): Pos
      reads this, snakePos
      requires snakePos.Length == 2
    {
      Pos(snakePos[0], snakePos[1])
    }

    /**
     * The invariant that reset establishes and step keeps: the body starts
     * with the head and has grown by one segment per point scored, no food
     * is pending and the food lies in the spawn range.
     */
    ghost predicate Valid()
      reads this, snakePos
    {
      snakePos.Length == 2 &&
      |snakeBody| == 3 + score &&
      snakeBody[0] == HeadPos() &&
      foodSpawn &&
      InSpawnRange(foodPos)
    }

    /** The state that reset leaves, apart from the random food position. */
    ghost predicate AtStart()
      reads this, snakePos
    {
      snakePos.Length == 2 &&
      HeadPos() == Pos(100, 50) &&
      snakeBody == [Pos(100, 50), Pos(90, 50), Pos(80, 50)] &&
      direction == Name("RIGHT") && action == Name("RIGHT") &&
      score == 0 && steps == 0 &&
      foodSpawn && InSpawnRange(foodPos)
    }

    constructor ()
      ensures Valid() && AtStart() && fresh(snakePos)
    {
      snakePos := new int[2];
      new;
      Reset();
    }

    method Reset()
      modifies this
      ensures Valid() && AtStart() && fresh(snakePos)
    {
      snakePos := new int[] [100, 50];
      snakeBody := [Pos(100, 50), Pos(90, 50), Pos(80, 50)];
      foodPos := SpawnFood();
      foodSpawn := true;
      direction := Name("RIGHT");
      action := direction;
      score := 0;
      steps := 0;
    }

    /** A food position chosen by the caller's random source within the spawn range. */
    method SpawnFood() returns (p: Pos)
      ensures 1 <= p.x <= 199 && 1 <= p.y <= 199
      ensures InSpawnRange(p)
    {
      assert 1 < (FrameSizeX / Cell) * Cell && 1 < (FrameSizeY / Cell) * Cell;
      var x :| 1 <= x < (FrameSizeX / Cell) * Cell;
      var y :| 1 <= y < (FrameSizeY / Cell) * Cell;
      p := Pos(x, y);
    }

    /** Moves the head list in place and hands the same list back. */
    static method Move(direction: Direction, pos: array<int>) returns (r: array<int>)
      requires pos.Length == 2
      modifies pos
      ensures r == pos
      ensures Pos(pos[0], pos[1]) == Moved(direction, Pos(old(pos[0]), old(pos[1])))
    {
      if direction == Name("UP") {
        pos[1] := pos[1] - 10;
      }
      if direction == Name("DOWN") {
        pos[1] := pos[1] + 10;
      }
      if direction == Name("LEFT") {
        pos[0] := pos[0] - 10;
      }
      if direction == Name("RIGHT") {
        pos[0] := pos[0] + 10;
      }
      r := pos;
    }

    /** Whether the food coordinates lie in range(head - 10, head + 10) on both axes. */
    function Eat(): (r: bool)
      reads this, snakePos
      requires snakePos.Length == 2
      ensures r <==> Within(HeadPos(), foodPos)
    {
      InPyRange(foodPos.x, snakePos[0] - 10, snakePos[0] + 10);
      InPyRange(foodPos.y, snakePos[1] - 10, snakePos[1] + 10);
      var condition1 := foodPos.x in PyRange(snakePos[0] - 10, snakePos[0] + 10);
      var condition2 := foodPos.y in PyRange(snakePos[1] - 10, snakePos[1] + 10);
      condition1 && condition2
    }

    /**
     * Scores and respawns the food when it is eaten, otherwise pops the
     * tail; in both cases no food is pending afterwards.  pop() needs a
     * non-empty body, which step guarantees by inserting the head first.
     */
    method FoodHandler() returns (reward: int)
      requires snakePos.Length == 2 && |snakeBody| >= 1
      modifies this
      ensures snakePos == old(snakePos) && direction == old(direction) && action == old(action)
      ensures steps == old(steps)
      ensures foodSpawn
      ensures old(Eat()) ==>
        reward == 1 && score == old(score) + 1 && snakeBody == old(snakeBody) && InSpawnRange(foodPos)
      ensures !old(Eat()) ==>
        reward == 0 && score == old(score) && snakeBody == old(snakeBody)[..|old(snakeBody)| - 1] &&
        (if old(foodSpawn) then foodPos == old(foodPos) else InSpawnRange(foodPos))
    {
      if Eat() {
        score := score + 1;
        reward := 1;
        foodSpawn := false;
      } else {
        snakeBody := snakeBody[..|snakeBody| - 1];
        reward := 0;
      }
      if !foodSpawn {
        foodPos := SpawnFood();
      }
      foodSpawn := true;
    }

    /**
     * The terminal conditions, in the order game_over tests them; the
     * self-collision test walks snake_body[1:] and stops at the first hit.
     */
    method GameOver(reward: int) returns (r: int, done: bool)
      requires snakePos.Length == 2
      ensures (r, done) == Outcome(HeadPos(), snakeBody, steps, reward)
    {
      if snakePos[0] < 0 || snakePos[0] > FrameSizeX - 10 {
        return -1, true;
      }
      if snakePos[1] < 0 || snakePos[1] > FrameSizeY - 10 {
        return -1, true;
      }
      var blocks := if |snakeBody| <= 1 then [] else snakeBody[1..];
      var i := 0;
      while i < |blocks|
        invariant 0 <= i <= |blocks|
        invariant forall k :: 0 <= k < i ==> blocks[k] != HeadPos()
        invariant forall k :: 0 <= k < |blocks| ==> blocks[k] == snakeBody[k + 1]
      {
        var block := blocks[i];
        if snakePos[0] == block.x && snakePos[1] == block.y {
          assert snakeBody[i + 1] == HeadPos();
          return -1, true;
        }
        i := i + 1;
      }
      if steps >= StepLimit {
        return 0, true;
      }
      return reward, false;
    }

    /**
     * One step: resolve the direction, move the head, insert a copy of it
     * at the front of the body, handle the food, evaluate the terminal
     * conditions against the step count before it is incremented, and
     * report the score.
     */
    method Step(action: int) returns (reward: int, done: bool, info: nat)
      requires Valid()
      modifies this, snakePos
      ensures Valid() && snakePos == old(snakePos)
      ensures direction == ChangeDirection(action, old(direction))
      ensures HeadPos() == Moved(direction, old(HeadPos()))
      ensures var ate := Within(HeadPos(), old(foodPos));
        snakeBody == Advanced(HeadPos(), old(snakeBody), ate) &&
        score == old(score) + (if ate then 1 else 0) &&
        (!ate ==> foodPos == old(foodPos)) &&
        (reward, done) == Outcome(HeadPos(), snakeBody, old(steps), if ate then 1 else 0)
      ensures snakeBody[0] == HeadPos() && snakeBody[1..] == if |snakeBody| > |old(snakeBody)| then old(snakeBody) else old(snakeBody)[..|old(snakeBody)| - 1]
      ensures |snakeBody| >= |old(snakeBody)|
      ensures steps == old(steps) + 1
      ensures info == score
      ensures this.action == old(this.action)
    {
      direction := ChangeDirection(action, direction);
      snakePos := Move(direction, snakePos);
      snakeBody := [Pos(snakePos[0], snakePos[1])] + snakeBody;
      ghost var ate := Eat();
      var foodReward := FoodHandler();
      assert foodReward == if ate then 1 else 0;
      reward, done := GameOver(foodReward);
      info := score;
      steps := steps + 1;
    }
  }
}
