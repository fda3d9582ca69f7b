# PinballBot core in Dafny

PinballBot is a reinforcement-learning agent that plays a simulated pinball
table. This project models its decision and bookkeeping core and proves
properties of that model:

- the agent's action selection (`epsilonGreedy`, `greedy`, `random`) in both
  copies: the agent's, which keeps a `float` running maximum, and the older
  one at the root of the sources, which keeps an `int` running maximum;
- the quantisation of ball readings: `roundFloat` and
  `reduceVectorPrecision` of the root `State`, and `State::round` of the
  agent's state (clamp above 10, then `%.2f`);
- the agent state's per-action value map;
- the contact listener's classification of a contact by the tags
  (`UserData`) of its two bodies, and its effect on the contact, the ball
  and the game-over callback;
- the actions: base `Action` with its reward constants and identifier, and
  the four flipper commands `actionsAvailable` builds, acting on the two
  flipper motor flags;
- the statistics logger: registered columns, header and data lines joined
  by `;`, and the name `archiveLog` renames the log file to.

Floating-point numbers are modelled as exact `real` values. The rounding
rules are written out:

- C `round` rounds halves away from zero;
- glibc's `%.2f` rounds to nearest, with ties to even;
- float-to-int conversion truncates toward zero;
- `size_t` arithmetic wraps modulo 2^64.

Randomness is passed in. `draw` is the number `randomFloatInRange(0, 1)`
returns, in [0, 1). `randomInt(lo, hi)` stands for `randomIntInRange`, and
`IsIntInRange` says it returns a value between its bounds.

The greedy selectors are generic in the candidate type, with `value` standing
for the candidates' `getValue`.

Files, standard output and the clock are represented as follows:

- files are a `FileSystem` object mapping paths to contents;
- what `puts` prints is returned;
- the local time is a parameter.

Modules:

| file | module | models |
|---|---|---|
| numeric.dfy | `Numeric` | `b2Vec2`, rounding rules, decimal digit strings |
| selection.dfy | `Selection` | `random`, the tie-set specification shared by both `greedy` copies |
| agent.dfy | `AgentCore` | src/agent/Agent.cpp |
| agent_state.dfy | `AgentState` | src/agent/State.cpp |
| root_state.dfy | `RootState` | src/State.cpp |
| contact.dfy | `SimUserData`, `SimContact` | src/sim/UserData.cpp, src/sim/ContactListener.cpp |
| flippers.dfy | `Flippers` | the flipper motor flags of src/sim/Simulation.cpp |
| actions.dfy | `Actions`, `ActionsSim` | src/action/Action.cpp, the flipper command classes, src/action/ActionsSim.cpp |
| stats_logger.dfy | `StatsLogger` | src/stats/StatsLogger.cpp |

## Model

| member | source | states |
|---|---|---|
| Numeric.RoundHalfAway | src/State.cpp:68 | C `round`: within 1/2 of its argument, and a halfway case goes away from zero |
| Numeric.RoundHalfEven | src/agent/State.cpp:30 | `%.2f` rounding of an exact tie: within 1/2, and a halfway case gives an even result |
| Numeric.Truncate | src/State.cpp:157 | float-to-int conversion: magnitude at most the argument's and within 1 of it, sign kept |
| Numeric.RoundIntegral | src/State.cpp:68 | both rounding rules return an integral value unchanged |
| Numeric.RoundHalfEvenAtMostOdd | src/agent/State.cpp:30 | a half-to-even result is at most an odd bound b iff the argument is below b + 1/2 |
| Numeric.RoundHalfEvenAtMostEven | src/agent/State.cpp:30 | a half-to-even result is at most an even bound b iff the argument is at most b + 1/2 |
| Numeric.Decimal | src/agent/State.cpp:30 | the `%d` text of a number: non-empty, decimal digits only, and its digits read back as the number |
| Numeric.DecimalLength | src/agent/State.cpp:30 | the text has exactly `DigitCount` characters |
| Numeric.DigitCountBound | src/agent/State.cpp:29-30 | a number has at most k digits iff it is below 10^k |
| Numeric.TwoDigits | src/stats/StatsLogger.cpp:66 | the `%02d` text: exactly two decimal digits, which read back as the number |
| Selection.Random | src/agent/Agent.cpp:113-115 | the state `random` picks is an element of the input; src/State.cpp:178-180 is the same function |
| Selection.RandomReachesAll | src/agent/Agent.cpp:113-115 | every candidate is returned by the draw that lands on its index, so the pick is the draw's |
| Selection.PickTied | src/agent/Agent.cpp:101-105 | the pick is a member of the tie set, and is its only member when there is exactly one |
| Selection.PickTiedReachesAll | src/agent/Agent.cpp:103-105 | with two or more ties, every tied candidate is picked by some draw: not first-match |
| Selection.PeakUpTo | src/agent/Agent.cpp:84-99 | the running maximum is at least 0, bounds every value seen from index 1 on, and is 0 or one of them |
| Selection.TiesUpToMembers | src/agent/Agent.cpp:88-99 | a candidate is in the running tie set iff it sits at an index of at least 1 with the given value |
| Selection.TiesAbovePeak | src/agent/Agent.cpp:91-95 | no candidate ties at a level above the running maximum, which is why clearing the list on a new maximum is correct |
| Selection.TiesMembers | src/agent/Agent.cpp:84-99 | the final tie set holds exactly the candidates from index 1 on whose value is max(0, largest value) |
| Selection.TiesNonEmpty | src/agent/Agent.cpp:88-105 | the tie set is non-empty iff some candidate from index 1 on has a value of at least 0, which needs at least two candidates |
| Selection.FirstIgnored | src/agent/Agent.cpp:88 | replacing `states[0]` changes neither the maximum nor the tie set |
| AgentCore.Agent.constructor | src/agent/Agent.cpp:124-126 | the available actions and the policy are stored unchanged |
| AgentCore.Agent.Think | src/agent/Agent.cpp:132-134 | the agent's fields are unchanged |
| AgentCore.Agent.Greedy | src/agent/Agent.cpp:83-106 | the loop ends with the tie set of `Ties`; the result is picked from it and has the maximal value among candidates from index 1 on; requires a non-empty tie set |
| AgentCore.Agent.EpsilonGreedy | src/agent/Agent.cpp:68-76 | greedy exactly when epsilon < draw, random otherwise; epsilon >= 1 always explores; epsilon < 0 always exploits; the result is always an input state |
| AgentState.Clamp | src/agent/State.cpp:27 | readings above 10 become 0; every other reading, negative ones included, is kept |
| AgentState.Hundredths | src/agent/State.cpp:30 | the magnitude in hundredths is within 1/2 of the exact one, and an exact tie gives the even neighbour, as `%.2f` rounds |
| AgentState.RoundValue | src/agent/State.cpp:27-30 | the number `round` prints lies within half a hundredth of the clamped reading |
| AgentState.RoundText | src/agent/State.cpp:26-32 | the `%.2f` text of the clamped reading: sign, integer digits, '.', two digits; its length follows the digit count |
| AgentState.RoundTextSpells | src/agent/State.cpp:26-32 | the text is in `%.2f` form, and read as a decimal it spells `RoundValue` of the reading: the clamped reading to the nearest hundredth |
| AgentState.RoundTextAboveBound | src/agent/State.cpp:27-30 | a reading above 10 prints as "0.00" |
| AgentState.RoundTextAtBound | src/agent/State.cpp:27-30 | the reading 10 itself prints as "10.00" |
| AgentState.RoundClamps | src/agent/State.cpp:27-30 | above 10 the text is "0.00"; otherwise the number the text spells is within 0.005 of the reading; exactly 10 prints "10.00" |
| AgentState.HundredthsBelowBound | src/agent/State.cpp:27-30 | a non-negative clamped reading rounds to at most 10.00 |
| AgentState.RoundTextIdempotent | src/agent/State.cpp:30 | rounding the number read off a printed text reproduces the text (the text "-0.00" excepted) |
| AgentState.NonNegativeFits | src/agent/State.cpp:29-30 | a non-negative reading prints in at most 5 characters and fits `buf[8]` with its NUL |
| AgentState.NegativeFits | src/agent/State.cpp:29-30 | a negative reading fits `buf[8]` iff it is above -999.995 |
| AgentState.State.constructor | src/agent/State.cpp:16-19 | x and y of position and velocity go through the same rounding; no action has a value yet |
| AgentState.State.GetValue | src/agent/State.cpp:34-36 | returns the stored value, or 0 for an action without one, and then stores that 0 |
| AgentState.State.SetValue | src/agent/State.cpp:38-40 | stores the value for this action and no other |
| AgentState.SetThenGet | src/agent/State.cpp:34-40 | after setting a value, reading it gives that value; another action still reads what it did before |
| RootState.RoundToGridNearest | src/State.cpp:68 | the rounded value times the scale is the integer nearest to the scaled number |
| RootState.RoundToGridKeepsGridPoints | src/State.cpp:68 | a grid point rounds to itself |
| RootState.RoundToGridIdempotent | src/State.cpp:68 | rounding twice is rounding once |
| RootState.RoundFloat | src/State.cpp:67-69 | `roundFloat` lands on the grid of step 1/(10·precision): scaled by 10·precision it is the integer nearest to the scaled number, within half a step |
| RootState.RoundFloatIdempotent | src/State.cpp:67-69 | applying `roundFloat` twice is applying it once |
| RootState.PrecisionTwoIsTwentieths | src/State.cpp:67-69 | with precision 2 results are multiples of 1/20 within 0.025: 0.01 → 0, 0.03 → 0.05 |
| RootState.DecimalScale | src/State.cpp:62-65 | the factor for `precision` decimal places is 10^precision, at least 1 |
| RootState.RoundToDecimalsNearestGridPoint | src/State.cpp:62-65 | rounding to `precision` decimals lands on the grid of step 10^-precision, nearest to the number, and keeps grid points |
| RootState.HundredthLostByRoundFloat | src/State.cpp:67-69 | 0.01 is kept by rounding to two decimals but sent to 0 by `roundFloat(2, ·)` |
| RootState.ReduceVectorPrecision | src/State.cpp:77-79 | each component is `roundFloat` of the same component of the input, and so a grid point that `roundFloat` keeps unchanged |
| RootState.ReduceVectorPrecisionIdempotent | src/State.cpp:77-79 | reducing a reduced vector again changes nothing |
| RootState.TruncScanUpTo | src/State.cpp:150-164 | the `int` running maximum is never negative |
| RootState.TruncTiesShape | src/State.cpp:153-170 | the `int`-max tie set holds only candidates from index 1 on with a value of at least 0, and is non-empty iff such a candidate exists |
| RootState.TruncMaxHasTies | src/State.cpp:156-160 | a positive `int` maximum always comes with a non-empty tie set |
| RootState.TruncAgreesOnIntegers | src/State.cpp:150-164 | when the values are integral or negative, the `int` maximum and tie set equal the `float` ones |
| RootState.TruncationPicksLaterSmallerValue | src/State.cpp:150-163 | for values [_, 0.9, 0.2] the tie set is [state 2], while the `float` version's is [state 1] |
| RootState.TruncMaxStaysZero | src/State.cpp:150-160 | while every value from index 1 on is below 1, the `int` maximum stays 0 |
| RootState.TruncPositiveBelowOneResets | src/State.cpp:150-160 | in that case every candidate with a positive value replaces the whole tie set by itself, whatever larger value came before |
| RootState.State.constructor | src/State.cpp:95-100 | the ball is stored with position and velocity reduced at precision 2 and acceleration kept |
| RootState.State.ReduceStatePrecision | src/State.cpp:86-89 | position and velocity are reduced; nothing else changes |
| RootState.State.GetReward | src/State.cpp:108-113 | the stub always returns 0 |
| RootState.State.GetValue | src/State.cpp:121-126 | the stub always returns 0 |
| RootState.State.Greedy | src/State.cpp:149-171 | the loop ends with the `int`-max tie set; the result is picked from it and sits at an index of at least 1 with a value of at least 0 |
| RootState.State.EpsilonGreedy | src/State.cpp:134-142 | greedy exactly when epsilon < draw, random otherwise; epsilon >= 1 always explores |
| RootState.StubValueTiesAll | src/State.cpp:121-126 | with the stub `getValue`, the maximum stays 0 and every candidate from index 1 on ties |
| RootState.StubGreedyPick | src/State.cpp:166-170 | so `greedy` returns `states[1]` for two states and a member of `states[1..]` for more |
| SimUserData.SixTypes | src/sim/UserData.cpp:16-23 | there are exactly six tags |
| SimUserData.NewUserData | src/sim/UserData.cpp:28-30 | the constructor stores type and reward unchanged |
| SimUserData.DefaultRewardIsNone | src/sim/UserData.cpp:26-28 | an omitted reward is 0, meaning none |
| SimContact.Classify | src/sim/ContactListener.cpp:21-71 | disabled contacts have no effect; flipper–border (either order) and flipper–flipper disable; ball–kicker kicks the ball's fixture with (0, 1); ball–gameover runs the callback; each as an iff |
| SimContact.BallTakesPrecedence | src/sim/ContactListener.cpp:33-44 | once a ball is involved only the other body decides, and the contact is never disabled |
| SimContact.PassiveBallContacts | src/sim/ContactListener.cpp:58-60 | the ball against pins, border, flipper or ball has no effect |
| SimContact.ClassifySymmetric | src/sim/ContactListener.cpp:33-56 | swapping the bodies only renames the ball's fixture |
| SimContact.Body.ApplyForceToCenter | src/sim/ContactListener.cpp:62 | the ball is woken and the force added |
| SimContact.ContactListener.constructor | src/sim/ContactListener.cpp:18-19 | the callback has not run yet |
| SimContact.ContactListener.PreSolve | src/sim/ContactListener.cpp:21-71 | applies `Classify`: disables the contact, kicks the ball body leaving the other, or runs the callback exactly once; otherwise nothing changes |
| Flippers.Simulation.constructor | src/sim/Simulation.cpp:225 | both flipper motors start disabled |
| Flippers.Simulation.EnableLeftFlipper | src/sim/Simulation.cpp:311-313 | the left motor is on; the right is unchanged |
| Flippers.Simulation.DisableLeftFlipper | src/sim/Simulation.cpp:318-320 | the left motor is off; the right is unchanged |
| Flippers.Simulation.EnableRightFlipper | src/sim/Simulation.cpp:326-328 | the right motor is on; the left is unchanged |
| Flippers.Simulation.DisableRightFlipper | src/sim/Simulation.cpp:333-335 | the right motor is off; the left is unchanged |
| Actions.RewardScale | src/action/Action.cpp:9-11 | MIN < DEFAULT < MAX, and DEFAULT is the midpoint |
| Actions.Uid | src/action/Action.cpp:19 | a class that does not declare `getUID` reports "NO_ACTION" |
| Actions.Effect | src/sim/Simulation.cpp:311-335 | the base action keeps the flags; a flipper command sets its side on or off and keeps the other |
| Actions.EffectIdempotent | src/sim/Simulation.cpp:311-335 | running a command twice is running it once |
| Actions.LastCommandWins | src/sim/Simulation.cpp:311-335 | the last command on a side decides that side, e.g. enable then disable leaves it off |
| Actions.OppositeSidesCommute | src/sim/Simulation.cpp:311-335 | commands on different sides commute |
| Actions.Action.Plain | src/action/Action.cpp:13 | a base action with no simulation |
| Actions.Action.Flipper | src/action/ActionSimEnableLeftFlipper.cpp:22-23 | a flipper command bound to its simulation |
| Actions.Action.Run | src/action/ActionSimEnableLeftFlipper.cpp:28-30 | running changes the flags as `Effect` says; base `run` (src/action/Action.cpp:17) changes nothing |
| ActionsSim.ActionsAvailable | src/action/ActionsSim.cpp:24-34 | four fresh, distinct actions: enable-left, disable-left, enable-right, disable-right, all on the given simulation |
| ActionsSim.AvailableKindsLayout | src/action/ActionsSim.cpp:28-31 | four different commands, even slots engage, slots 0 and 1 drive the left flipper |
| ActionsSim.RightFlipperUidsCoincide | src/action/ActionSimEnableRightFlipper.h:14-23 | the two right-flipper entries both report "NO_ACTION" |
| StatsLogger.Join | src/stats/StatsLogger.cpp:31-35 | the joined line starts with the first field; `SplitJoin` and `JoinSplit` give its meaning |
| StatsLogger.Line | src/stats/StatsLogger.cpp:31-37 | a line starts with its first field and ends with the newline |
| StatsLogger.LastIndexOf | src/stats/StatsLogger.cpp:56 | the index of the last occurrence, with nothing matching after it, or -1 iff there is none |
| StatsLogger.Split | src/stats/StatsLogger.cpp:31-37 | a line splits into at least one field |
| StatsLogger.SplitJoin | src/stats/StatsLogger.cpp:31-37 | when no field holds ';', splitting a joined line gives back exactly the fields |
| StatsLogger.JoinSplit | src/stats/StatsLogger.cpp:31-37 | joining the pieces of any line gives the line back |
| StatsLogger.LineFields | src/stats/StatsLogger.cpp:31-37 | a line ends in one newline, and what precedes it splits into its n fields |
| StatsLogger.Names | src/stats/StatsLogger.cpp:31-35 | the column titles, in registration order |
| StatsLogger.Values | src/stats/StatsLogger.cpp:46-50 | the callbacks' results, in registration order |
| StatsLogger.AppendAfterWrite | src/stats/StatsLogger.cpp:27-53 | appending to a just-written file is writing the concatenation |
| StatsLogger.RenameMovesContent | src/stats/StatsLogger.cpp:69 | renaming moves the content to the new name and touches no other file |
| StatsLogger.FileSystem.Write | src/stats/StatsLogger.cpp:28-29 | the file holds exactly the text written |
| StatsLogger.FileSystem.Append | src/stats/StatsLogger.cpp:44 | the text goes after the old content; a missing file starts empty |
| StatsLogger.FileSystem.Rename | src/stats/StatsLogger.cpp:69 | the files become `RenameFile` of the old ones |
| StatsLogger.SizeT | src/stats/StatsLogger.cpp:56-57 | `size_t` wrap-around: the result is at most `npos` and congruent to the exact value modulo 2^64 |
| StatsLogger.FindLastOf | src/stats/StatsLogger.cpp:56-57 | `npos` iff the character is absent; otherwise the index of its last occurrence |
| StatsLogger.Prefix | src/stats/StatsLogger.cpp:56-57 | `substr(0, n)` is the prefix of length min(n, size) |
| StatsLogger.Timestamp | src/stats/StatsLogger.cpp:61-66 | the stamp is 12 characters longer than the year's digits |
| StatsLogger.TimestampFields | src/stats/StatsLogger.cpp:66 | the stamp reads back field by field: the year's digits, then month, day, hour and minute as two digits each, separated by '-' |
| StatsLogger.TimestampLength | src/stats/StatsLogger.cpp:61-66 | a four-digit year gives a 16-character stamp, which fits the 20-byte buffer |
| StatsLogger.ArchiveStem | src/stats/StatsLogger.cpp:56 | with the last dot at p > 0 the stem is `file[..p-1]`; with no dot or a dot at 0 it is the whole name |
| StatsLogger.ArchiveExtension | src/stats/StatsLogger.cpp:57 | with no dot it is empty; with the last dot at p it is `file[..p+1]`, the whole prefix through the dot |
| StatsLogger.ArchiveName | src/stats/StatsLogger.cpp:56-69 | the new name starts with the stem, then '-', then the stamp, and ends with the extension; it is exactly that long |
| StatsLogger.ArchiveNameWithoutDot | src/stats/StatsLogger.cpp:56-57 | without a dot, the new name is the file name, '-', the stamp |
| StatsLogger.ArchiveNameWithDot | src/stats/StatsLogger.cpp:56-69 | with the last dot at p > 0, the new name is `file[..p-1]` + "-" + stamp + `file[..p+1]` |
| StatsLogger.ArchiveNameLeadingDot | src/stats/StatsLogger.cpp:56-57 | with the only dot at 0, `0 - 1` wraps and the new name is file + "-" + stamp + "." |
| StatsLogger.ArchiveNameMangles | src/stats/StatsLogger.cpp:55-70 | "stats.csv" becomes "stat-" + stamp + "stats." |
| StatsLogger.SplitExtension | src/stats/StatsLogger.cpp:56-57 | stem and extension concatenate to the name; the extension is empty iff there is no dot, and otherwise starts with the only dot it holds |
| StatsLogger.IntendedArchiveNameInsertsStamp | src/stats/StatsLogger.cpp:55-70 | the intended name is the original with "-" + stamp inserted before the extension |
| StatsLogger.IntendedArchiveNameExample | src/stats/StatsLogger.cpp:55-70 | the intended name of "stats.csv" is "stats-" + stamp + ".csv" |
| StatsLogger.Logger.constructor | src/stats/StatsLogger.cpp:20-21 | no columns yet |
| StatsLogger.Logger.RegisterLoggingColumn | src/stats/StatsLogger.cpp:23-25 | one column is appended at the end; earlier columns are unchanged |
| StatsLogger.Logger.HeaderLine | src/stats/StatsLogger.cpp:31-37 | the column titles in order, joined by ';', then a newline; requires a column |
| StatsLogger.Logger.DataLine | src/stats/StatsLogger.cpp:46-52 | the callbacks' results in order, joined by ';', then a newline; the invocation order comes from the `calls` record the method keeps beside each call, since callbacks are pure here |
| StatsLogger.Logger.InitLog | src/stats/StatsLogger.cpp:27-38 | the file holds exactly the header line |
| StatsLogger.Logger.Log | src/stats/StatsLogger.cpp:40-53 | the data line is appended to the file |
| StatsLogger.Logger.ArchiveLog | src/stats/StatsLogger.cpp:55-70 | prints the stamp and renames the file to `ArchiveName` |
| StatsLogger.InitThenLogTwice | src/stats/StatsLogger.cpp:27-53 | after `initLog` and two `log` calls the file holds the header and the two lines, in order |

## Left out

- Floating point: values are exact reals. `float` rounding errors are not modelled, nor is an IEEE negative zero as input. Readings in [-0.005, 0) do print "-0.00" in the model, but `RoundValue` of them is 0, which carries no sign.
- For `%.2f`, only exactly representable ties are decided by the ties-to-even rule.
- `RoundTextIdempotent`: excludes the negative-zero text "-0.00", whose number exact reals cannot carry with its sign.
- Pseudo-random generation (`seed`, `rand`, `default_random_engine`, the distributions): replaced by the `draw` and `randomInt` parameters.
- `AgentCore.Agent.Greedy` and `RootState.State.Greedy`: require a non-empty tie set. Without one the source calls `random` on an empty vector, which is undefined.
- StatsLogger.Logger.HeaderLine, `DataLine`, `InitLog` and `Log`: require at least one column. Without one the source reads `columns[0]` of an empty vector (src/stats/StatsLogger.cpp:31, 46), which is undefined.
- `RootState.RoundFloat`: requires `precision != 0`, since the source divides by `10 * precision`.
- AgentCore.Agent.constructor: the source takes `std::vector<Action>` by value, so every flipper command is sliced to a base `Action` copy that runs the base no-op and reports "NO_ACTION"; the model stores the shared actions as they are. The default argument `Policy policy = Policy()` is not modelled either.
- `AgentCore.Agent.Think` is empty in the source, so the model proves only that nothing changes.
- `Policy` and the value table, history and reward updates are not part of this model. `Policy` becomes a type parameter.
- The `std::cout` print in the root `State` constructor (src/State.cpp:99), and the `puts` of the stamp, which is returned rather than printed.
- The `Coords` constructor copies into `char` arrays whose size src/agent/State.h does not declare, so the copies are modelled as strings and their sizes are not modelled.
- `strdup` memory is not modelled. Overflow of `sprintf` into `buf[8]` is characterised by `AgentState.NegativeFits` rather than modelled as memory corruption.
- `round` in src/agent/State.cpp takes a Box2D `float32`; the `b2Vec2` coordinates are reals.
- The ball holder (src/Ball.cpp) has getters but not the `setPosition`/`setVelocity` that src/State.cpp calls. Their evident effect is modelled as a record update of the `ball` field.
- The headers that disagree with the definitions (`State(Ball, bool, bool)` in src/agent/State.h, `softmax` in src/agent/Agent.h) are not modelled; the .cpp definitions are.
- `Actions.Uid`: the two left-flipper `getUID` overrides are declared in src/action/ActionSimEnableLeftFlipper.h and src/action/ActionSimDisableLeftFlipper.h. Their definitions are not part of this model, so their strings are a parameter.
- The Box2D physics (bodies, joints, stepping) is not modelled beyond the motor flags, the contact's enabled flag, a body's accumulated force and its awake flag.
- `ContactListener`'s callback is counted (`gameOverCalls`); what the callback does is not part of this model.
- `StatsLogger.Logger.DataLine`: callbacks are pure functions of no arguments, so side effects between callbacks are not modelled. The order of invocation is recorded in `calls`.
- File streams: `open` failures, buffering and `rename` errors are not modelled. A missing source file leaves the files unchanged, as a failed `rename` does.
- `StatsLogger.Logger.ArchiveLog`: requires the stamp to fit the 20-byte buffer. For years of eight or more digits `strftime` returns 0 and leaves the buffer indeterminate, which is not modelled.
- `time` and `localtime` are not modelled: the local time is the `now` parameter.
- `StatsLogger.FindLastOf` and the archive-name functions require the name to be shorter than `npos`. Every `std::string` is, since its `max_size` is below `npos`.
- Rendering, the SDL driver loop and the Box2D table construction are not modelled.

## Findings

| source | as written | input that shows it | evidently intended | confidence | as-written member | corrected member |
|---|---|---|---|---|---|---|
| src/stats/StatsLogger.cpp:56-57 | the stem is `substr(0, dot - 1)` and the extension `substr(0, dot + 1)` | "stats.csv" is renamed to "stat-<stamp>stats." | stem before the last dot, extension from it: "stats-<stamp>.csv" | high; not executed | StatsLogger.ArchiveNameMangles | StatsLogger.IntendedArchiveNameInsertsStamp |
| src/State.cpp:67-69 | scales by `10 * precision`, while the documentation (src/State.cpp:62-65) says `precision` is the number of decimal places | `roundFloat(2, 0.01)` gives 0, not 0.01 | scale by 10^precision | medium; not executed | RootState.HundredthLostByRoundFloat | RootState.RoundToDecimalsNearestGridPoint |
| src/State.cpp:150 | the running maximum of `greedy` is an `int`, so a new maximum is truncated | values [_, 0.9, 0.2] select the state with 0.2 | a `float` maximum, as in src/agent/Agent.cpp:84 | medium; not executed | RootState.TruncPositiveBelowOneResets | AgentCore.Agent.Greedy |
