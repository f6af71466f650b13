# Snake environment rules in Dafny

This project models the game rules of `SnakeEnv`, a Gym environment for the game of Snake on a 200×200 pixel frame with 10-pixel cells and a step limit of 1000. It covers how an action resolves the direction, how the head moves, the food test, growth or tail removal, the terminal-condition evaluator and the step counter. The model proves what each of these promises.

- `snake_env.dfy`, module `Snake`: the data model and the rule functions. It also holds the class `SnakeEnv`. The class has the environment's fields: `snakePos` (a two-element array, because `move` updates the head list in place), `snakeBody`, `foodPos`, `foodSpawn`, `direction`, `action`, `score` and `steps`. Its methods are `Reset`, `Step`, `FoodHandler`, `GameOver`, `SpawnFood` and `Move`, and `Eat` is a function on its fields. `Valid()` is the invariant that reset establishes and step keeps:
  - the body starts with the head;
  - the body has exactly `3 + score` segments;
  - no food is pending;
  - the food lies in the spawn range.
- `scenarios.dfy`, module `Scenarios`: client methods that build an environment, reset it and step it. They prove what an agent observes from the specifications of `Reset` and `Step` alone.

The direction is a `Name(string) | Code(int)` value. `reset` stores the name `"RIGHT"`, and `change_direction` produces the integer codes 0–3. `move` reacts only to the four names. The model therefore reproduces the source's actual behaviour:
- Once an action in 0..3 has been taken, the head never moves again.
- From the name `"RIGHT"`, every action 0..3 is adopted, even LEFT (2).
- The very first such step ends the episode with reward −1, because the head meets its own copy in `snake_body[1]`.
- Only an action outside 0..3 keeps `"RIGHT"` and moves the head.

The idealised game differs in two places: the snake would move in the resolved direction, and a reversal on the first step would be ignored. The model follows the code on both.

The food test uses Python's half-open `range`. Food within `[head-10, head+10)` on both axes is eaten. So aligned food one cell to the left of or above the head counts as eaten, and food one cell to the right or below does not.

## Model

| member | source | states |
|---|---|---|
| `Snake.ChangeDirection` | snake/envs/snake_env.py:59-73 | An action in 0..3 is adopted unless the direction is that action's opposite code (pairs 0/1, 2/3), in which case the direction is kept. Any other action keeps the direction. A code is never turned into its opposite, and a code stays a code. From a name, every action 0..3 is adopted. |
| `Snake.Moved` | snake/envs/snake_env.py:76-90 | `"UP"`/`"DOWN"` change only y, by −10/+10. `"LEFT"`/`"RIGHT"` change only x, by −10/+10. Every other direction value, including every integer code, leaves the position unchanged. At most one coordinate changes, by at most one cell. |
| `Snake.SnakeEnv.Move` | snake/envs/snake_env.py:75-90 | Updates the given two-element head list in place to `Moved` of its old value and returns the same list. |
| `Snake.PyRange` | snake/envs/snake_env.py:109-110 | `range(lo, hi)` yields `max(0, hi-lo)` integers, `lo + k` at index `k`. |
| `Snake.InPyRange` | snake/envs/snake_env.py:109-110 | `v in range(lo, hi)` holds exactly when `lo <= v < hi` (proved by induction on the range). |
| `Snake.SnakeEnv.Eat` | snake/envs/snake_env.py:102-111 | True iff `head.x-10 <= food.x < head.x+10` and `head.y-10 <= food.y < head.y+10`. |
| `Snake.EatWindowIsHalfOpen` | snake/envs/snake_env.py:109-111 | Food one cell up-left of the head is eaten. Food one cell right of, or one cell below, the head is not. |
| `Snake.SnakeEnv.SpawnFood` | snake/envs/snake_env.py:92-100 | The spawned food lies in `[1,199]×[1,199]`, the values `randrange(1, (frame // 10) * 10)` draws. |
| `Snake.SpawnedFoodIsEdible` | snake/envs/snake_env.py:99-111 | Every food position in the spawn range is eaten from some grid-aligned head position inside the frame. |
| `Snake.Outcome` | snake/envs/snake_env.py:185-208 | Done iff the head is outside `[0,190]²`, or equals some segment other than `body[0]`, or `steps >= 1000`. When done, the reward is −1 for a wall or self hit, and otherwise 0, which overrides a food reward. When not done, the reward passed in is returned. |
| `Snake.SnakeEnv.GameOver` | snake/envs/snake_env.py:185-208 | The wall tests, the walk over `snake_body[1:]` with early return, and the step-limit test together compute `Outcome` of the head, body, step count and reward. |
| `Snake.SnakeEnv.FoodHandler` | snake/envs/snake_env.py:148-161 | If the food was eaten: score +1, reward 1, body unchanged, food respawned in range. If not: the last segment is removed, score unchanged, reward 0, and the food is kept unless it was pending. Either way `foodSpawn` is true afterwards. The head, direction and step count are untouched. |
| `Snake.SnakeEnv.Step` | snake/envs/snake_env.py:113-141 | Keeps `Valid()`. The new direction is `ChangeDirection(action, old direction)`. The new head is `Moved(new direction, old head)`. `body[0]` is the new head and the rest of the body is the old body, minus its last segment when nothing was eaten. The body never shrinks. Score rises by one exactly when the food was eaten. `(reward, done)` is `Outcome` against the step count before the increment. `steps` rises by 1. `info` is the score. |
| `Snake.SnakeEnv.Reset` | snake/envs/snake_env.py:34-53 | Resets to a fresh head list `[100,50]`, body `[[100,50],[90,50],[80,50]]`, direction and `action` `"RIGHT"`, score and steps 0, `foodSpawn` true and food in `[1,199]²`. |
| `Snake.SnakeEnv.constructor` | snake/envs/snake_env.py:22-32 | A new environment starts in the reset state. |
| `Scenarios.FirstStepAfterReset` | snake/envs/snake_env.py:124-134 | After reset, a step with any action 0..3 leaves the head on `[100,50]` and returns reward −1 with done true. |
| `Scenarios.FirstStepWithOtherAction` | snake/envs/snake_env.py:124-134 | After reset, a step with an action outside 0..3 moves the head to `[110,50]`. It is not done, and the reward is 0 or 1. |
| `Scenarios.SecondStepStaysPut` | snake/envs/snake_env.py:124-134 | After a first step with an action 0..3, a second step with any action leaves the head on `[100,50]` and again returns −1 with done true. |

## Left out

- Rendering and the observation: `game_window.fill`, `update_game_state`, `get_image_array_from_game`, `render`, `display_score` and `end_game`. These are pygame graphics calls, and `end_game` also exits the process. `Reset` and `Step` therefore return no image.
- `time.sleep(self.sleep)` in `step` and the `sleep` attribute: a timing delay with no effect on the state.
- `random.randrange`: `SpawnFood` makes an arbitrary choice within the bounds that `randrange` draws from. The model cannot say which value is drawn or how values are distributed.
- Gym's `action_space`/`observation_space` declarations, `pygame.display.set_mode` and `close`: library plumbing.
- The info dictionary: `Step` returns only its `score` entry.
- `FoodHandler`: it requires a non-empty body, because `pop()` on an empty list raises. Its one caller, `step`, inserts the head first, so this never happens.
- Actions that are not integers (Python would compare any value): the action is an `int`. Out-of-range integers are modelled and leave the direction unchanged, as the code does.
- Frame size and step limit are the constants 200, 200 and 1000 that the constructor sets. They are never changed afterwards.
