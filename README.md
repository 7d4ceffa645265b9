# Waypoint-following sailing bot

This project models the controller of a bot for a round-the-world sailing
simulation, written in Dafny. The bot owns a fixed course of checkpoints.
Each checkpoint has a latitude, a longitude, an arrival radius and a
`reached` flag. The simulator calls `Bot.run` once per time step. In each
step the bot scans the course in order and computes a sail setting for every
checkpoint it looks at. It marks a checkpoint reached when the ship is
strictly within that checkpoint's radius. It stops at the first checkpoint
that is still unreached and steers to it.

Everything is in `bot.dfy`, in module `ShipBot`:

- `Checkpoint`, `Location` and `Instructions` are records. `Instructions`
  holds only the two fields the bot sets: an optional `location` and an
  optional `sail`.
- `Bot` is a class whose `course` is an array of checkpoints. Its
  constructor builds the sixteen-checkpoint course. `Run` is the per-step
  loop: it updates the flags in place and exits with `break`.
- `Run` is proved against two functions of the course as it was before the
  step. `Advance` gives the new flags and `Steer` gives the instructions.
  `ActiveIndex` is the index where the scan stops. The lemmas state what
  these functions mean: flags are monotone, reached flags stay a prefix of
  the course, the target is the first unreached checkpoint, the sail comes
  from the last checkpoint examined, and the sail lies between 0 and 1.
- `Voyage` applies `Advance` over a sequence of ship positions, one per
  step. The lemmas about it carry the step-by-step properties over a whole
  run.

The great-circle distance comes from the simulator's utilities. It is a
parameter `distance` here, and the model assumes only that it is never
negative. Floating-point numbers are modelled as reals. `np.linalg.norm` of
the scalar speed is its absolute value (`Abs`).

The simulator may call the bot with a zero step length
(`jump = dt * |speed| = 0`). The code then divides `radius / jump` with numpy
floats. For `radius > 0` that gives +infinity, and `min(+inf, 1)` is 1. The
braking branch requires `dist < 2 * radius + jump`. With `jump = 0` and a
non-negative distance, that branch is taken only when `radius > 0`. So a
zero step always gives full sail, and `Throttle` models that case exactly.
It needs no precondition on `dt` or `speed`. The zero step does not raise
a division error, because numpy division by zero only warns.

The last checkpoint is the race start, and it has radius 0. No distance is
below 0, so that checkpoint is never reached. Every step of every run
therefore sets a location (`VoyageNeverFinishes`). Within one jump of the
start, the sail setting becomes `min(0 / jump, 1) = 0`.

## Model

| member | source | states |
|---|---|---|
| `ShipBot.InitialCourse` | bot.py:27-77 | The course has 16 checkpoints. None is reached, every radius is non-negative, and the last checkpoint is the start with radius 0. |
| `ShipBot.Bot.constructor` | bot.py:23-77 | The bot's course array is fresh and holds exactly the initial course. The class invariant holds: radii are non-negative and reached flags form a prefix. |
| `ShipBot.Mark` | bot.py:161-163 | After its test, a checkpoint is reached iff it already was or the distance is strictly below its radius. Nothing but the flag changes. |
| `ShipBot.Throttle` | bot.py:155-160 | For a non-negative jump the sail lies in [0, 1]. It is 1 when the distance is at least two radii plus one jump. Below 1, the checkpoint is within that range, the sail times the jump equals the radius, and the radius is shorter than the jump. Conversely, with a positive jump, a checkpoint within that range and a radius shorter than the jump, the sail is radius/jump. |
| `ShipBot.ActiveFrom` | bot.py:147-168 | A scan started at `from` stops at the first index whose checkpoint is unreached after its test, or at the end of the course. Every checkpoint passed on the way ends reached. |
| `ShipBot.ActiveIndex` | bot.py:147-168 | The scan's stopping index: every earlier checkpoint ends reached, and the checkpoint at the index, if any, ends unreached. |
| `ShipBot.Advance` | bot.py:147-168 | One step keeps the course's length, and every checkpoint's position and radius. What it does to the flags is stated by `ReachedMonotone`, `ExaminedReachedIff`, `UntouchedBeyondTarget` and `PrefixPreserved`. |
| `ShipBot.Steer` | bot.py:137-170 | A sail is set iff the course is non-empty. Which location and which sail are set is stated by `TargetIsFirstUnreached` and `SailOfLastExamined`. |
| `ShipBot.Voyage` | bot.py:91-93 | A run of any number of steps keeps the course's length. |
| `ShipBot.Bot.Run` | bot.py:79-170 | The new course equals `Advance` of the old one, and the instructions equal `Steer` of the old course with `jump = dt * abs(speed)`. The class invariant is preserved. |
| `ShipBot.ReachedMonotone` | bot.py:162-163 | A step never clears a reached flag and changes no other field. |
| `ShipBot.ExaminedReachedIff` | bot.py:157-163 | A checkpoint is examined when all earlier ones end reached. It then ends reached iff it was reached before or the distance is strictly below its radius. |
| `ShipBot.UntouchedBeyondTarget` | bot.py:164-168 | Every checkpoint after the first one still unreached is left exactly as it was. |
| `ShipBot.PrefixPreserved` | bot.py:147-168 | If the reached flags form a prefix of the course before a step, they do after it. |
| `ShipBot.TargetIsFirstUnreached` | bot.py:164-168 | The location is unset iff every checkpoint is reached after the step. When it is set, it is the position of the first unreached checkpoint, and all earlier checkpoints are reached. |
| `ShipBot.SailOfLastExamined` | bot.py:156-160 | The sail is the throttle of the last checkpoint examined. That is the first unreached checkpoint, or the final one when all are reached. |
| `ShipBot.SailInUnitRange` | bot.py:134-160 | With a non-negative step length, non-negative radii and a non-negative distance function, the sail lies between 0 and 1. |
| `ShipBot.FinalCheckpointNeverReached` | bot.py:162-168 | A final checkpoint of radius 0 stays unreached, so a location is always set. |
| `ShipBot.TwoReachedInOneTick` | bot.py:157-168 | In one step, two consecutive checkpoints can both become reached, and the ship is then sent to the third. |
| `ShipBot.ThrottleScenarios` | bot.py:156-160 | Full sail far away or when the radius is at least a jump. A radius of 5 with a jump of 50 gives 0.1. |
| `ShipBot.VoyageKeepsReached` | bot.py:162-163 | Once a checkpoint is reached, it stays reached for the rest of the run. |
| `ShipBot.VoyageKeepsPrefix` | bot.py:147-168 | Reached flags that form a prefix keep forming a prefix over any number of steps. |
| `ShipBot.FinalLegStaysOpen` | bot.py:72-76 | Over any run, a final checkpoint of radius 0 keeps radius 0 and stays unreached. |
| `ShipBot.VoyageNeverFinishes` | bot.py:27-77 | From the initial course, after any run, radii are still non-negative and the next step sets a location. |

## Left out

- `distance_on_surface` (geodesic math from the simulator) is a parameter. The model assumes only that it is non-negative.
- `forecast` and `world_map` are simulator callbacks that the code never calls, so they are not parameters.
- `t`, `heading`, `vector` and the team name do not affect the output.
- `Instructions` holds only `location` and `sail`. The bot never sets its heading, vector or turn fields.
- The simulator's `Checkpoint`, `Location`, `Instructions` and `config` are external. The first three are records here. `config.start` is the constructor's `start` argument.
- Floating point is modelled as exact reals. Rounding, NaN and infinities are not modelled, except for the zero-jump quotient described above. The code never produces NaN with non-negative distances and radii.
- Checkpoints are Python objects in a list. Here they are values in an array owned by the bot. Nothing else holds references to them, so aliasing plays no part.
