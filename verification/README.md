# Cheferd: a verified model of the control plane

Cheferd limits the I/O operations per second of storage jobs. A core controller
divides one global limit among jobs and each job's share among its stages; local
controllers divide the share of a stage among its channels. This project models
four connected parts and proves what they promise:

* the three **rate allocators** (static, vanilla, leftover) with their hysteresis,
  one round at a time and over whole runs;
* the **stage registry** of the core controller: three redundant indexes, the
  per-job maps, the sessions of the local controllers and their counter;
* the **protocol**: sessions with a submission and a completion queue, the program
  of calls a run makes on them, admission of stages at a local controller, and the
  agreement between the core controller and all local controllers;
* the **text formats**: the tokenizer, enforcement rules, housekeeping rules,
  administrator policies.

## Layout

| module | content |
|---|---|
| `Arithmetic`, `Sequences`, `Decimal` | sums, floor division, duplicate-free sequences, map totals, decimal text |
| `Tokenizer`, `EnforcementWire`, `Definitions`, `HousekeepingWire` | the text formats and their round trips |
| `Vanilla`, `Leftover` | the allocators on vectors of jobs |
| `Registry`, `Statistics` | the state of the core controller, registration, removal, statistics |
| `Rounds`, `RoundLaws`, `Runs` | one enforcement round on that state, and every run of the feedback loop |
| `Effects`, `Demands` | what a policy, a reply and a round do to each job in plain numbers; submitted against stored demands over every run |
| `Machine` | the leftover round with the source's conversions to `unsigned long` |
| `Loop`, `Witnesses` | the feedback loop turn by turn, and concrete runs of it for each control type |
| `CoreController`, `FeedbackLoop` | the class with the source's fields, loops and maps; each method, and each iteration as a whole, is proved equal to the functions above |
| `Sessions`, `Programs`, `Messages` | the queues and workers; the calls of a run and why they pair up; what their texts say |
| `Local`, `LocalController`, `Channels`, `Aggregation` | the local controller, as functions and as the class; the channels after a handshake |
| `Agreement` | core and local controllers as one system of small steps |
| `EndToEnd` | from the rate of a job to the limits its stages receive |

The imperative parts of the source are classes and loops here. Their methods state
the whole new state as a function of the old one (`State() == Spec(old(State()))`),
and what the source promises is proved about those functions.

## How the source is read

* `long` is unbounded `int`. The leftover allocator's `float` and `double` are exact
  fractions: `0.95`, `0.25`, `0.05` and `0.01` become comparisons of integers, and
  `floor(x * a / b)` is integer floor division. Integer division truncates toward zero.
* The order in which a round visits jobs and local controllers is a parameter
  (`Rounds.Order`). Every theorem holds for every order; the order of the source's
  maps is one of them.
* A stage is indexed in the source by the text name `+` environment number.
  `Registry.KeyIsInjective` shows that distinct stages have distinct texts, so the
  model uses the pair itself. Environments are numbers in plain decimal, as the source
  prints them everywhere but at registration.
* An RPC is an atomic call, or a message step in `Agreement`. The class
  `CoreController` keeps a ghost log of its calls on the sessions.
* The conversion of a floating value to `long`, which is undefined out of range, is
  `None` there (`Machine.MachineAt`).
* `std::stol` is `Decimal.Parse`; text it would reject aborts the parse (`None`).
* The `hash`-based switches are string equality, as in the source when no two of its
  names collide.
* A map lookup with `at()` that would throw is a precondition proved wherever the
  model reaches it, or a branch with its exact condition.

### What callers must provide

* Stage keys are fresh and a local controller's address registers once
  (`Registry.RegisterLocalSessions` and `RegisterStageSessions` show both are needed).
* A stage is registered while its local controller still has a session.
* Vanilla: at most as many live jobs without a demand as there are operations in the
  limit (`Vanilla.ShareableExactly` shows that this is exactly what is needed).
  Leftover: the limit is at least the number of live jobs and demands are at least 1.
* Leftover: while statistics are outstanding, stages register only at local
  controllers that were not asked (`Programs.RunIsPairedExactly`).
* Addresses of local controllers contain no `+`: the core controller marks updated
  pairs with the text job `+` address, and only then are the marks distinct.

### What the proofs brought to light

* Leftover control can enforce a negative rate: `Witnesses.NegativeRateIsReached` is
  such a run of the feedback loop, `Leftover.NonNegativeExactly` the exact condition
  for one round, and by `Runs.LeftoverStaysWithinLimit` it stays within 1% of the limit.
* In leftover control a rate computed below zero passes through `unsigned long`. An
  unset demand (-1) is the way there (`Machine.UnsetExactly`), and a run reaches a
  state in which it is given more than a million times the limit
  (`Witnesses.UnsetDemandEscapes`). `Machine.MachineExactly` says exactly when the
  machine enforces the rates of the exact round.
* Vanilla gives every job without a demand one operation, whatever is left. With more
  such jobs than operations it hands out more than the limit
  (`Vanilla.UnsetDemandsCanOverspend`) or a negative rate
  (`Vanilla.UnsetDemandsCanGoNegative`), and with no more than that it does neither:
  `Vanilla.ShareableExactly` is an equivalence.
* A stage registered at a local controller whose leftover statistics are outstanding
  receives the statistics as the answer to its STAGE_READY rule
  (`Witnesses.StageGetsStatistics`). Registrations elsewhere are harmless:
  `Loop.LoopIsPairedExactly` is an equivalence.
* A stage that waits for registration when all registered stages of its local
  controller are reported as failed, or connects later, finds the session deleted:
  `local_sessions_.at` throws. `Agreement.StageIsStranded` is such a run,
  `Agreement.QueuedStageSurvivesExactly` the exact condition over every run.
* `delete_` of key-value stores, the background class of the simple LSM context,
  `mknod`, and about seventy POSIX operations that have a code but no printed name
  (`fread`, `open64` and others) have no inverse among the converters: they reach the
  stage as `no_op`.
* A job or operation name with `.` or `|`, or an empty one, never survives an
  enforcement rule (`EnforcementWire.RoundTripsExactly`).
* The local controller reads another key out of STAGE_READY than the stage's if the job
  has a `|` in its name, and only then (`Messages.ReadyNamesStage`).
* The aggregated collection of the core controller calls the non-aggregated RPC
  (`src/networking/local_interface.cpp:282`), so the aggregated handler is modelled on
  its own; and a local controller activates a stage whatever the acknowledgement of
  `mark_stage_ready` says (`src/controller/local_control_application.cpp:714-729`).

## Model

| member | source | states |
|---|---|---|
| Tokenizer.ParseRule | src/controller/core_control_application.cpp:992-1002 | the find / substr loop ends and computes the tokens of the string |
| Tokenizer.TokensAreMaximalRuns | src/networking/local_interface.cpp:306-317 | the tokens are exactly the maximal delimiter-free runs, each once, from left to right |
| Tokenizer.TokensOfJoined | src/networking/paio_interface.cpp:442-451 | tokenizing inverts joining non-empty delimiter-free tokens, with leading, trailing or repeated delimiters |
| Decimal.ParseText | src/networking/local_interface.cpp:186-190 | reading back printed numbers, negative ones included, gives the number |
| EnforcementWire.PrintRule | src/controller/core_control_application.cpp:861-879 | the text accumulated piece by piece is the nested format of one operation and its environments |
| EnforcementWire.ParseEnforcementRule | src/networking/local_interface.cpp:149-209 | the nested loops compute the map from operations to rates, or abort on the first malformed part |
| EnforcementWire.ParsedExactly | src/networking/local_interface.cpp:149-209 | a rule is parsed if and only if every part after the first dot has four tokens, a leading number and pairs of two numbers |
| EnforcementWire.LastPartWins | src/networking/local_interface.cpp:159-209 | the last part that names an operation decides its rule id, its job and its rates |
| EnforcementWire.LastPairWins | src/networking/local_interface.cpp:190-206 | the last pair that names an environment decides its rate |
| EnforcementWire.RoundTrips | src/networking/local_interface.cpp:159-209 | a printed rule parses to rule id 0, its job, its operation and its environment map, for any limit |
| EnforcementWire.RoundTripsExactly | src/controller/core_control_application.cpp:861-879 | that holds if and only if both names are non-empty and free of dots and bars |
| Definitions.ContextRoundTrip | src/utils/rules_file_parser.cpp:168-208 | the two converters of context types are inverse on valid contexts |
| Definitions.DefinitionRoundTrip | src/utils/rules_file_parser.cpp:211-730 | printing and converting back a code gives the code if it is invertible in its context, no_op otherwise |
| HousekeepingWire.BuildHandshake | src/controller/core_control_application.cpp:690-692 | the loop joins the rule texts into one colon-separated handshake |
| HousekeepingWire.FillHousekeepingRules | src/networking/local_interface.cpp:320-342 | the loop that skips the first token yields the received rule texts in order |
| HousekeepingWire.HandshakeRoundTrip | src/networking/local_interface.cpp:320-342 | the local controller holds exactly the texts the core controller sent |
| HousekeepingWire.FillChannel | src/networking/paio_interface.cpp:454-467 | filling a create_channel rule from its printed fields gives its canonical form |
| HousekeepingWire.FillObject | src/networking/paio_interface.cpp:470-487 | filling a create_object rule from its printed fields gives its canonical form |
| HousekeepingWire.FillPrinted | src/session/policy_generator.cpp:19-71 | the stage's tokens of a printed rule are its fields, and refill to its canonical form |
| HousekeepingWire.TokensOfPrinted | src/session/policy_generator.cpp:19-71 | the tokens of a printed rule, one by one: kind 4, rule id, name, numbers and converted codes in their order |
| HousekeepingWire.PipelineYieldsCanonical | src/session/policy_generator.cpp:19-71 | print, join, split, tokenize and refill gives every rule in canonical form, in order |
| HousekeepingWire.PipelineRoundTripsExactly | src/utils/rules_file_parser.cpp:168-730 | the pipeline returns the same rules if and only if every code has an inverse |
| HousekeepingWire.PipelineIsIdempotent | src/utils/rules_file_parser.cpp:168-730 | a second pass through the pipeline changes nothing, on all valid contexts |
| RoundLaws.PolicyReachesJob | src/controller/core_control_application.cpp:818-846 | a demand submitted as a policy line reaches the job it names, with its value and operation, and no other job |
| Effects.PolicyEffect | src/controller/core_control_application.cpp:818-846 | a demand line sets one demand and the operation and counts as a change under static control; any other line clears the operation; neither touches another demand |
| Demands.DemandsAreThoseSubmitted | src/controller/core_control_application.cpp:108-200 | every run of every control type: a set demand is the one last submitted for the job since it was last without a stage; any other live job has -1, or 1 after a vanilla round; no further job is stored |
| Vanilla.ServeOne | src/controller/core_control_application.cpp:388-405 | serving a job never lowers the equal share of the jobs still to be served |
| Vanilla.FirstPhaseAt | src/controller/core_control_application.cpp:388-405 | what the first loop gives job k, in numbers: the equal share of what the jobs before it left if that is below its demand, else its demand, or one if that is unset |
| Vanilla.SameBonus | src/controller/core_control_application.cpp:407-414 | the second loop adds the same equal part of what is left to every job |
| Vanilla.RewrittenAt | src/controller/core_control_application.cpp:391-395 | the first loop changes no set demand, and an unset one to 1 exactly if the share it meets is at least -1 |
| Vanilla.GuaranteedShare | src/controller/core_control_application.cpp:388-405 | in any order, with at most as many unset demands as operations, every job gets between min(demand, limit / n) and its demand |
| Vanilla.SmallerDemandGetsNoMore | src/controller/core_control_application.cpp:388-405 | a job served earlier with no larger demand never gets more than a later one, unless its demand is unset and the limit is below the number of jobs: an unset demand is always worth one operation |
| Vanilla.Conservation | src/controller/core_control_application.cpp:388-414 | with at most as many unset demands as operations, both phases hand out limit minus a remainder smaller than n, and every job keeps its guarantee |
| Vanilla.ShareableExactly | src/controller/core_control_application.cpp:384-405 | the first phase hands out no negative rate and no more than the limit if and only if at most as many demands are unset as there are operations |
| Vanilla.UnsetDemandsCanOverspend | src/controller/core_control_application.cpp:391-397 | limit 1 and three unset demands: more than the limit is handed out |
| Vanilla.UnsetDemandsCanGoNegative | src/controller/core_control_application.cpp:391-402 | limit 1 and four unset demands: the last job is handed the rate -2 |
| Vanilla.RefinesWaterFilling | src/controller/core_control_application.cpp:384-405 | over non-decreasing demands, the one-pass loop refines integer water filling and hands out everything |
| Vanilla.WaterLevelExists | src/controller/core_control_application.cpp:384-405 | a water level exists if and only if the demands exceed the limit |
| Vanilla.MaxMinFair | src/controller/core_control_application.cpp:384-405 | max-min fair up to one operation: raising a job lowers one that has at most one more |
| Leftover.ServeOne | src/controller/core_control_application.cpp:488-511 | the fair share never shrinks while jobs are processed, and nothing is overdrawn |
| Leftover.FirstPhaseAt | src/controller/core_control_application.cpp:488-505 | what the first loop gives job k, in numbers: its usage and a quarter of the unused demand if it uses at most 95% of it, else its demand, both capped by the equal share of what is left |
| Leftover.ComputedAt | src/controller/core_control_application.cpp:517-524 | the second loop adds to job k the part of what is left that its usage has in the total, rounded down |
| Leftover.GrantIsWantedOrFair | src/controller/core_control_application.cpp:488-505 | the nested comparisons grant the smaller of what the job wants and the fair share; the want lies between usage and demand |
| Leftover.FirstPhaseGuarantee | src/controller/core_control_application.cpp:488-511 | in any order every job gets between min(want, limit / n) and what it wants |
| Leftover.UsageIsServed | src/controller/core_control_application.cpp:443-524 | after both phases a job within its demand keeps at least min(its usage, limit / n) |
| Leftover.NeverOverdrawn | src/controller/core_control_application.cpp:488-511 | left_iops is never negative |
| Leftover.Conservation | src/controller/core_control_application.cpp:443-524 | the two phases hand out between limit - (n - 1) and limit |
| Leftover.RescaledTotal | src/controller/core_control_application.cpp:554-572 | after rescaling, maintained and floored rates together stay within the limit |
| Leftover.EnforcedExactly | src/controller/core_control_application.cpp:534-572 | the hysteresis in numbers, job by job: an enforced rate within 1% of the computed one is kept, within 5% if less than 95% of the limit is used, none after a change; the others are computed rates, scaled to what is left of the limit if usage is that low and they do not fit |
| Leftover.EnforcedIsNear | src/controller/core_control_application.cpp:538-552 | a round that does not rescale enforces the computed rate, or keeps one within 1% of it, or within 5% at low usage; a rate that close is kept in every round without a change |
| Leftover.EnforcedTotalAtLeast | src/controller/core_control_application.cpp:529-572 | every round enforces at least 95% of limit - (n - 1) in total, 99% at high usage, all of it after a change |
| Leftover.NonNegativeExactly | src/controller/core_control_application.cpp:529-572 | every round, also one entered with negative rates: no enforced rate is negative, unless usage is low, the maintained rates alone exceed the limit and some job is updated |
| Leftover.ThirdRound | src/controller/core_control_application.cpp:554-572 | a round entered below 101% of the limit enforces the rate -3 |
| Leftover.RescalingRepairs | src/controller/core_control_application.cpp:529-572 | if the positive enforced rates are within the limit, a low-usage round leaves non-negative rates within the limit, even when it starts from negative ones |
| Leftover.RoundKeepsSlack | src/controller/core_control_application.cpp:529-572 | a round keeps the non-negative parts of the enforced rates strictly below 101% of the limit |
| Leftover.RoundKeepsFloor | src/controller/core_control_application.cpp:529-572 | a round entered below 101% of the limit enforces no rate below -1% of it |
| Machine.NegativeExactly | src/controller/core_control_application.cpp:488-524 | every vector of asks: a rate is computed below zero if and only if the demand is negative and the job's part of what the first phase leaves does not make up for it |
| Machine.UnsetExactly | src/controller/core_control_application.cpp:517-524 | an unset demand is computed as -1 if and only if the job's part of what the first phase leaves rounds down to nothing, and as no less than -1 |
| Machine.MachineIsExact | src/controller/core_control_application.cpp:554-572 | without a negative computed rate the conversions to unsigned long and back are defined and change no enforced rate of a round |
| Machine.MachineExactly | src/controller/core_control_application.cpp:554-572 | the machine enforces exactly the rates of the round, all of them defined, if and only if no rate is computed below zero or the maintained rates leave nothing to scale |
| Machine.MinusOneWraps | src/controller/core_control_application.cpp:554-572 | a rate computed as -1 becomes 2^64 - 1, times what is allowed, divided by the updated rates, if the round rescales and this fits into a signed word, and is undefined otherwise |
| Registry.KeyIsInjective | src/controller/core_control_application.cpp:756 | distinct stages have distinct index texts, whatever the job name |
| Registry.RegisterLocalKeeps | src/controller/core_control_application.cpp:637-661 | registering a new local controller keeps the registry and its counter |
| Registry.RegisterLocalSessions | src/controller/core_control_application.cpp:637-661 | the counter of local controllers stays exact if and only if the address is new |
| Registry.RegisterStageKeeps | src/controller/core_control_application.cpp:716-785 | registering a fresh stage keeps the three indexes and the job maps in agreement |
| Registry.RegisterStageSessions | src/controller/core_control_application.cpp:716-785 | sessions and stage lists keep the same keys if and only if the local controller is live |
| Registry.RegisterStageMaps | src/controller/core_control_application.cpp:728-742 | a new job keeps the demand, rate and enforced rate stored for it, or starts with -1, -1 and 0; other jobs and known jobs are not concerned |
| Registry.DropStageKeeps | src/controller/core_control_application.cpp:959-989 | removing a failed stage succeeds without a failing lookup, removes exactly that stage and keeps the registry |
| Registry.DropStageMaps | src/controller/core_control_application.cpp:971-979 | removing the only stage of a job forgets its demand, rate and enforced rate; removing another stage leaves all three maps alone; other jobs are never concerned |
| Registry.ComesBackUnset | src/controller/core_control_application.cpp:736-739 | a job that lost its last stage and registers again has demand -1, rate -1 and enforced rate 0 |
| Statistics.CollectResultKeeps | src/controller/core_control_application.cpp:912-956 | a reply removes exactly the failed stages, an empty one all stages of its sender; the sender is erased exactly when it has none left |
| Statistics.CollectAllKeeps | src/controller/core_control_application.cpp:269-313 | a statistics round keeps the registry, the sessions and the counter in agreement |
| Statistics.CollectRemoves | src/controller/core_control_application.cpp:232-265 | collecting adds no stage and leaves none that a processed reply reports as failed |
| Statistics.CollectAllLeaves | src/controller/core_control_application.cpp:269-313 | a statistics round forgets exactly the jobs it leaves without a stage, and keeps demand, rate and enforced rate of all others |
| Statistics.HealthyChangesNothing | src/controller/core_control_application.cpp:912-956 | replies without a -1 change nothing: no live stage or local controller is dropped |
| Rounds.ReadyIsRoutable | src/controller/core_control_application.cpp:856-861 | in a consistent registry total_stages is at least 1 and every lookup of the sender succeeds |
| RoundLaws.VanillaRoundClose | src/controller/core_control_application.cpp:407-423 | after a vanilla round each live job's enforced rate is within 9 of its computed rate |
| RoundLaws.VanillaRoundKeeps | src/controller/core_control_application.cpp:374-428 | a vanilla round with at most as many unset demands as operations leaves the enforced total within 9n of a total that spends the limit |
| Effects.VanillaJob | src/controller/core_control_application.cpp:416-423 | of each visited job: the computed rate is enforced if it is at least 10 off the enforced one or something changed; otherwise the rate is -1 and the enforced rate stays |
| Effects.VanillaDemand | src/controller/core_control_application.cpp:391-395 | of each visited job: a set demand is unchanged; an unset one becomes 1 or stays -1, and becomes 1 whenever the limit has an operation for each unset demand |
| RoundLaws.StaticRoundKeeps | src/controller/core_control_application.cpp:330-371 | a static round keeps the registry, and after a change every set demand is enforced within 9 |
| Effects.StaticJob | src/controller/core_control_application.cpp:351-363 | of each visited job after a change: its demand if set, else its rate, is enforced if at least 10 off the enforced rate; otherwise the rate is -1 and the enforced rate stays; without a change nothing happens |
| Effects.StaticLeavesAlone | src/controller/core_control_application.cpp:357-363 | a job with demand -1 and rate -1 whose enforced rate is within 9 of -1 keeps both |
| Effects.StaticSendsOthers | src/controller/core_control_application.cpp:357-366 | and every rule such a round sends is one of another job |
| Demands.UnnamedIsNeverEnforced | src/controller/core_control_application.cpp:330-371 | static, every run: a job that no policy names keeps demand -1, rate -1 and enforced rate 0 |
| RoundLaws.LeftoverRoundKeeps | src/controller/core_control_application.cpp:431-577 | a leftover round keeps the enforced total strictly below 101% of the limit, and every rate above -1% of it |
| Effects.LeftoverJob | src/controller/core_control_application.cpp:534-576 | of each visited job: the enforced rate becomes the one of the round, and the rate too unless the old one was kept |
| RoundLaws.AsksAreObserved | src/controller/core_control_application.cpp:447-480 | every visited job has a positive usage, so the proportional split is defined |
| Effects.AskOfJob | src/controller/core_control_application.cpp:446-481 | the usage of a job is the sum over all its stages at all its addresses: the reported rate, 1 for none or zero, and limit times jobs for each stage of a local controller not asked |
| Effects.RoundSubmitsExactly | src/controller/core_control_application.cpp:849-881 | a round submits, to each local controller of each job it sends, the printed rate divided by all stages of the job, and nothing else |
| Runs.StatisticsSuffice | src/controller/core_control_application.cpp:447-455 | after collecting, every statistics lookup of the leftover round succeeds |
| Runs.EventKeeps | src/controller/core_control_application.cpp:108-200 | every event of a feedback loop keeps the registry and the rates invariant of its control type |
| Runs.RegistryInEveryState | src/controller/core_control_application.cpp:108-200 | in every state of every run indexes, job maps, sessions and counter agree |
| Runs.LeftoverStaysWithinLimit | src/controller/core_control_application.cpp:431-577 | leftover, every run: the enforced rates of the live jobs add up to less than 101% of the limit, and none is below -1% of it |
| Runs.LeftoverSpendsTheLimit | src/controller/core_control_application.cpp:431-577 | leftover, every run: after each iteration at least 95% of limit - (n - 1) is enforced |
| Runs.StaticTracksDemands | src/controller/core_control_application.cpp:132-184 | static, every run: after each iteration every live job with a set demand is enforced within 9 of it |
| Runs.VanillaSpendsTheLimit | src/controller/core_control_application.cpp:374-428 | vanilla, every run: after each iteration the enforced total is within 9n of a total that spends the limit |
| Runs.EventMarks | src/controller/core_control_application.cpp:108-184 | the change flag is set by a stage that joins and reset by every turn |
| Witnesses.OnlyJobGetsTheLimit | src/controller/core_control_application.cpp:374-428 | a turn of the vanilla loop from the empty registry, with both registrations and the iteration, enforces the whole limit for its only job |
| Witnesses.PolicyIsEnforced | src/controller/core_control_application.cpp:330-371 | a turn of the static loop from the empty registry enforces the demand of a submitted policy |
| Witnesses.NegativeRateIsReached | src/controller/core_control_application.cpp:431-577 | turns of the leftover loop from the empty registry, six statistics windows long, end with the rates 338, -3 and 665 enforced |
| Witnesses.UnsetDemandEscapes | src/controller/core_control_application.cpp:554-572 | turns of the leftover loop, and statistics its next turn collects, with which the machine enforces over a million times the limit for a job without a demand |
| CoreController.CoreController.constructor | src/controller/core_control_application.cpp:16-40 | a new controller has the initial state and made no calls |
| CoreController.CoreController.HandleLocalControllerSession | src/controller/core_control_application.cpp:637-661 | new state and the handshake call, submitted and awaited |
| CoreController.CoreController.HandleDataPlaneSession | src/controller/core_control_application.cpp:716-785 | new state and the STAGE_READY call, submitted and awaited |
| CoreController.CoreController.RemoveStage | src/controller/core_control_application.cpp:959-989 | erases the environment and, when empty, the address and the job with its demand, rate and enforced rate (the effect on these three: `Registry.DropStageMaps`) |
| CoreController.CoreController.CollectStatisticsResult | src/controller/core_control_application.cpp:912-956 | waits once; new state; tells whether the local controller is left without stages |
| CoreController.CoreController.CollectStatisticsGlobalSend | src/controller/core_control_application.cpp:208-229 | one request to each local controller with stages, in order; tells whom it asked; the state is unchanged |
| CoreController.CoreController.CollectStatisticsGlobalCollect | src/controller/core_control_application.cpp:232-265 | new state; awaits the replies in the order of the requests; deletes the sessions left without stages |
| CoreController.CoreController.CollectStatisticsGlobal | src/controller/core_control_application.cpp:269-313 | asks every local controller with stages, awaits in the same order, deletes the sessions left without stages |
| CoreController.CoreController.UpdateJobDemands | src/controller/core_control_application.cpp:818-846 | processes one policy and returns its operation |
| CoreController.CoreController.SendEnforcementRule | src/controller/core_control_application.cpp:849-881 | records the rate, submits one printed rule to each local controller of the job, marks exactly those |
| CoreController.CoreController.CollectEnforcementRuleResults | src/controller/core_control_application.cpp:884-909 | waits for exactly the submitted rules, in the order of submission |
| CoreController.CoreController.EnforceRates | src/controller/core_control_application.cpp:338-370 | sends the rates that differ enough, withdraws the others, awaits every answer |
| CoreController.CoreController.ComputeAndEnforceStaticRules | src/controller/core_control_application.cpp:330-371 | one static round: whole new state and all calls (job by job: `Effects.StaticJob`, `Effects.RoundSubmitsExactly`) |
| CoreController.CoreController.ShareOut | src/controller/core_control_application.cpp:384-405 | the first phase of vanilla: demands, rates and what is left (job by job: `Vanilla.FirstPhaseAt`, `Vanilla.RewrittenAt`) |
| CoreController.CoreController.ComputeAndEnforceVanillaRules | src/controller/core_control_application.cpp:374-428 | one vanilla round: whole new state and all calls (job by job: `Effects.VanillaJob`, `Effects.VanillaDemand`) |
| CoreController.CoreController.GrantAll | src/controller/core_control_application.cpp:443-511 | the first phase of leftover: rates, usages, their sum and what is left |
| CoreController.CoreController.DistributeByUsage | src/controller/core_control_application.cpp:517-524 | what is left is added in proportion to usage |
| CoreController.CoreController.Classify | src/controller/core_control_application.cpp:534-552 | which jobs keep their enforced rate, and the sums of both sides (in numbers: `Leftover.EnforcedExactly`) |
| CoreController.CoreController.RescaleAndEnforce | src/controller/core_control_application.cpp:554-576 | the last loop: scaled rates sent, maintained jobs untouched, every answer awaited |
| CoreController.CoreController.ComputeAndEnforceLeftoverRules | src/controller/core_control_application.cpp:431-577 | one leftover round: whole new state and all calls (job by job: `Effects.LeftoverJob`, `Leftover.EnforcedExactly`) |
| CoreController.MarkIsInjective | src/controller/core_control_application.cpp:876-890 | job and address are recovered from an update mark when addresses have no plus |
| Loop.SentAreFound | src/controller/core_control_application.cpp:243-251 | walking over all sessions at the collection finds exactly the local controllers that were asked |
| Loop.LoopIsAllowed | src/controller/core_control_application.cpp:119-184 | whatever the environment does, the round counter and the list of those asked make one request at a time and collect exactly what was requested |
| Loop.JoinsInOrder | src/controller/core_control_application.cpp:132-138 | pending local controllers register before pending stages, each in order |
| Loop.EveryFifthTurn | src/controller/core_control_application.cpp:161-176 | leftover control requests statistics in every fifth turn and collects and enforces in the fourth turn after it; the others do both in every turn |
| Loop.LoopIsPairedExactly | src/controller/core_control_application.cpp:119-184 | every run of the feedback loop: its calls are paired if and only if no stage registers at a local controller whose statistics are outstanding |
| Loop.ActionsAreRun | src/controller/core_control_application.cpp:108-200 | the states of the loop are those of a run, so that every result about runs holds of the loop |
| FeedbackLoop.Iterate | src/controller/core_control_application.cpp:132-184 | collection, policy, round and reset of the change flag, for each control type: the state and the calls of one iteration of a run |
| FeedbackLoop.Perform | src/controller/core_control_application.cpp:108-200 | every action of a run, the class against the run: the new state and the calls made |
| FeedbackLoop.ExecuteTurn | src/controller/core_control_application.cpp:140-184 | one turn after the registrations, with the counter and the list of those asked: new state, calls, counter and list |
| FeedbackLoop.ExecuteFeedbackLoop | src/controller/core_control_application.cpp:108-200 | the whole loop with its guard and its round counter: the state and all calls are those of the run |
| Sessions.Session.SubmitRule | src/session/local_controller_session.cpp:261-269 | the session of the schedule after the controller's next submission |
| Sessions.Session.DequeueRule | src/session/local_controller_session.cpp:209-225 | the session of the schedule after its worker takes a rule; nothing changes once the session stopped |
| Sessions.Session.SendRule | src/session/local_controller_session.cpp:47-189 | the session of the schedule after its worker posts a response, for exactly the answered kinds of rule |
| Sessions.Session.GetResult | src/session/local_controller_session.cpp:239-275 | the session of the schedule after a wait; in a well-paired program the response returned answers the awaited rule |
| Sessions.Session.StartSession | src/session/local_controller_session.cpp:27-44 | the worker loop is a schedule of takes and posts that answers every queued rule once, in order |
| Sessions.ResponsesArriveInOrder | src/session/local_controller_session.cpp:27-44 | any program, any interleaving: the n-th wait on a session returns the response to its n-th rule |
| Sessions.WaitsGetTheirResponse | src/controller/core_control_application.cpp:884-909 | in a well-paired program every wait returns the response to its own rule |
| Sessions.StepsUseUpWork | src/session/local_controller_session.cpp:27-44 | every step of controller or worker uses up work, so no schedule is endless |
| Sessions.NeverStuck | src/session/local_controller_session.cpp:239-252 | while calls remain some step is enabled: no wait is deadlocked |
| Sessions.QueuesEndEmpty | src/session/local_controller_session.cpp:200-252 | after a balanced program all queues are empty and no worker holds a rule |
| Programs.EveryWaitIsAnswered | src/controller/core_control_application.cpp:108-200 | every control type, every run whose statistics windows are clean and every interleaving: each wait returns the response to its own rule, no wait is deadlocked, all queues are empty at the end |
| Programs.RunIsPairedExactly | src/controller/core_control_application.cpp:108-200 | the calls of a run are paired if and only if no stage registers, while leftover statistics are outstanding, at a local controller that was asked; collection may be in another order than the requests |
| Programs.WindowIsPairedExactly | src/controller/core_control_application.cpp:208-265 | requests, any registrations, collection: the calls are paired if and only if no registered stage is at a local controller that was asked |
| Programs.NoWindowNoHarm | src/controller/core_control_application.cpp:132-184 | static and vanilla control leave no statistics window open, so every run of theirs is clean |
| Programs.RunIsAnswered | src/session/local_controller_session.cpp:47-189 | every rule of a run is of a kind that posts exactly one response |
| Messages.AnsweredExactly | src/session/local_controller_session.cpp:47-189 | of the rules that start with a number, a worker answers exactly the kinds 0, 1, 6 and 11, and kind 3 with subtype 5 or 6 |
| Messages.KindsSent | src/controller/core_control_application.cpp:683-692 | STAGE_READY, the handshake and enforcement rules are of kinds 1, 11 and 6, housekeeping rules of kind 4 |
| Messages.RequestsExactly | src/controller/core_control_application.cpp:208-229 | statistics are requested from exactly the local controllers that have stages |
| Messages.RequestTokens | src/controller/core_control_application.cpp:215-216 | leftover control requests aggregated statistics (3, 6), the others plain ones (3, 5) |
| Messages.StageJoinsCalls | src/controller/core_control_application.cpp:790-805 | a stage that joins makes one rule with its job and environment go to its own local controller, and the answer is awaited |
| Messages.LocalJoinsCalls | src/controller/core_control_application.cpp:683-705 | a local controller that joins is sent one handshake, out of which it reads exactly the housekeeping rules, and its answer is awaited |
| Messages.ReadyNamesStage | src/networking/local_interface.cpp:119-125 | the local controller reads the key of the stage back out of STAGE_READY if and only if the job has no bar in its name |
| Programs.RegistrationInWindowMispairs | src/controller/core_control_application.cpp:208-229 | leftover: a STAGE_READY rule submitted in the statistics window receives the statistics |
| Witnesses.StageGetsStatistics | src/controller/core_control_application.cpp:119-184 | two turns of the leftover loop from the empty registry: in every schedule the STAGE_READY wait returns the response to the statistics request |
| Local.AdmittedExactly | src/controller/local_control_application.cpp:532-599 | a stage is admitted if and only if no rule arrived late and every held rule was acknowledged |
| Local.AdmissionIsEarned | src/controller/local_control_application.cpp:532-599 | every run: connected stages acknowledged all rules held at their submission, and the two session maps stay disjoint |
| Local.StageRuleRoundTrip | src/networking/paio_interface.cpp:490-506 | the stage reads back rule, channel, object and limit of the rule text it is sent |
| LocalController.LocalController.LocalHandshake | src/controller/local_control_application.cpp:246-283 | appends the received rules and the channels they create (which, for every list of rules: `Channels.HandshakeChannels`) |
| Channels.HandshakeChannels | src/controller/local_control_application.cpp:246-283 | every list of valid rules, from the printers to a new local controller: each operation holds exactly the channels of the create_channel rules that serve it, in order; an operation without such a rule has no entry |
| Channels.AddChannelAppends | src/controller/local_control_application.cpp:260-279 | a create_channel rule appends its channel to those of its type, or of its context if the type is no_op; any other rule, and every other operation, is left alone |
| Channels.CreatedInOrder | src/controller/local_control_application.cpp:268-277 | the k-th channel of an operation is that of the k-th rule serving it |
| LocalController.LocalController.SubmitHousekeepingRules | src/controller/local_control_application.cpp:669-705 | counts the acknowledged rules; the first error ends the count at zero |
| Local.InstalledExactly | src/controller/local_control_application.cpp:669-705 | an answer other than ok voids the count; otherwise the given answers are counted and missing ones are not |
| LocalController.LocalController.AdmitStage | src/controller/local_control_application.cpp:532-599 | connects the stage if and only if every rule was acknowledged; otherwise forgets it |
| Local.DecidedFor | src/controller/local_control_application.cpp:532-599 | after its admission a stage is prepared if and only if it acknowledged every rule, and no other stage is concerned |
| LocalController.LocalController.MarkStageReady | src/controller/local_control_application.cpp:294-308 | moves a prepared stage to the active ones, ignores any other |
| LocalController.LocalController.CollectGlobalStatistics | src/controller/local_control_application.cpp:369-432 | reports every active stage and then drops exactly the failed ones |
| LocalController.LocalController.CreateEnforcementRule | src/controller/local_control_application.cpp:311-366 | a whole request with any number of operations: the installs up to the first refusal, in order, and the acknowledgement |
| Local.RequestParts | src/controller/local_control_application.cpp:320-353 | a request is one operation after the other |
| Local.LastAckExactly | src/controller/local_control_application.cpp:327-347 | without a refusal the last operation with a stage and a channel, or without an entry, decides: 1 if it is served, 0 and an error if not |
| LocalController.LocalController.InstallAtChannels | src/controller/local_control_application.cpp:733-754 | one install at each channel and one answer for each, stopping at the first refusal |
| LocalController.LocalController.InstallOperation | src/controller/local_control_application.cpp:320-353 | one operation, stage by stage: the installs up to the first refusal, and whether there was none |
| Local.EnvInstallAt | src/controller/local_control_application.cpp:331-346 | stage by stage, and for each stage one install at each channel and object, of the limit of that stage divided by its channels |
| Local.CarriedAll | src/controller/local_control_application.cpp:311-366 | a request is carried out in full if and only if no install but the last is refused |
| Local.CarriedExactly | src/controller/local_control_application.cpp:341-352 | what is carried out is the prefix that ends with the first refusal, or everything |
| LocalController.LocalController.CollectGlobalStatisticsAggregated | src/controller/local_control_application.cpp:436-521 | the loop over rounds computes the aggregate and the sessions left |
| Aggregation.MeanOfSamples | src/controller/local_control_application.cpp:448-510 | a stage answering every round reports the arithmetic mean of its samples, for any number of rounds |
| Aggregation.SampledExactly | src/controller/local_control_application.cpp:448-510 | a round samples exactly the stages active before or made ready meanwhile that have not failed since |
| Aggregation.LateJoinerStaysBetween | src/controller/local_control_application.cpp:448-510 | a late joiner's value lies between its smallest and largest sample |
| Aggregation.FailureIsFinal | src/controller/local_control_application.cpp:448-510 | a stage that fails in some round ends as -1 and is never sampled again |
| Agreement.StepKeeps | src/controller/local_control_application.cpp:294-432 | every step of the core or a local controller keeps registry, sessions, queue and messages in agreement |
| Agreement.EveryStateIsSound | src/controller/core_control_application.cpp:716-785 | that agreement holds in every state of every run |
| Agreement.ExtrasAreInFlight | src/controller/local_control_application.cpp:294-308 | every run: active sessions are registered for their local controller, and the core's extra entries are exactly those with STAGE_READY or a -1 report in flight |
| Agreement.RulesReachSessions | src/controller/local_control_application.cpp:733-754 | every run: every enforcement rule under way reaches a present session |
| Agreement.DroppedOnlyWhenAllFailed | src/controller/core_control_application.cpp:912-956 | every run: a processed reply is never empty, and its sender is dropped if and only if all its stages were reported failed |
| Agreement.SessionSurvivesExactly | src/controller/core_control_application.cpp:232-265 | every local controller that reported and every continuation of the collection: its session is left if and only if some stage registered for it was not reported failed |
| Agreement.SessionsLostExactly | src/controller/core_control_application.cpp:232-265 | every run: a connected local controller has no session if and only if some collection that ended had all its stages reported failed |
| Agreement.QueuedStageSurvivesExactly | src/controller/core_control_application.cpp:716-785 | every run: the registration at the head of the queue finds the session of its local controller if and only if no collection that ended had all stages of that local controller reported failed |
| Agreement.StageIsStranded | src/controller/core_control_application.cpp:716-785 | a run after which a stage waits for registration at a local controller whose session is deleted |
| EndToEnd.SiteTotal | src/controller/local_control_application.cpp:320-346 | one local controller hands on no more than it received, and loses less than one operation a channel |
| EndToEnd.EachChannelIsSet | src/controller/local_control_application.cpp:320-346 | each channel and object of each stage named in the rule is set, to the limit of the stage divided by its channels |
| EndToEnd.JobTotal | src/controller/core_control_application.cpp:856-880 | the limits the stages of a job receive add up to at most its rate, and to more than its rate minus the number of channels |
| EndToEnd.JobLimits | src/controller/local_control_application.cpp:320-346 | each channel receives exactly the rate divided once by all channels, rounded down |
| EndToEnd.VanillaInstallsTheLimit | src/controller/core_control_application.cpp:374-428 | fresh vanilla rates: all channels of all jobs receive at most the limit, and more than the limit minus the number of channels |

## Left out

- Sockets, gRPC stubs, file and configuration reading, logging, clocks and sleeps: input and output.
- Threads and object lifetime: a worker is a sequence of steps, and sessions outlive their workers.
- `HandshakeSession`: a shorter copy of the session queues.
- `RemoveRule`, `COLLECT_STATS`, the MDS control type and user rules: unimplemented or unused in the source.
- The loops that read rules from a file (`get_create_channel_rules`, `get_create_object_rules`, `erase_rules`): they only feed the printers modelled here.
- The third property of an `init` enforcement operation: the controllers only send `rate`.
- Machine overflow of `long`, and rounding of `float` and `double` in the leftover allocator.
- Lost RPCs in `Agreement`, and a local controller that is restarted under its old address.
- Programs.EveryWaitIsAnswered: assumes that no stage registers at an asked local controller while leftover statistics are outstanding; `Programs.RunIsPairedExactly` shows that the calls are paired in no other case.
- Runs.LeftoverStaysWithinLimit: assumes demands of at least 1 and a limit of at least the number of live jobs, because an unset demand escapes every bound (`Witnesses.UnsetDemandEscapes`).
- Leftover.EnforcedTotalAtLeast: assumes demands of at least 1 and a limit of at least the number of jobs, and so does `Runs.LeftoverSpendsTheLimit`; an unset demand can make a rate negative.
- Machine.MinusOneWraps: assumes that the maintained and the updated rates are each at most 2^62 in total and that some updated rate is left.
- Channels.HandshakeChannels: rules of valid contexts only, as the rules file parser makes them.
- Runs.VanillaSpendsTheLimit: assumes at most as many unset demands as operations (`Vanilla.Shareable`); `Vanilla.ShareableExactly` shows that otherwise the first phase overspends or hands out a negative rate.
- Vanilla.ShareableExactly: demands below -1, which nothing in the source gives a meaning to, are not covered.
- Machine.MachineExactly: the equivalence covers demands of at least -1; that no negative computed rate suffices (`Machine.MachineIsExact`) holds for all demands.
- Vanilla.MaxMinFair: assumes demands that do not decrease in visiting order; the one-pass loop is not max-min fair in other orders.
- Agreement.StepKeeps: registers a stage only while its local controller has a session; `Agreement.QueuedStageSurvivesExactly` says over every run when it has one, and `Agreement.StageIsStranded` is a run in which it has not.
- EndToEnd.JobTotal: the bound from below assumes that every local controller of the job has a channel for the operation; a controller without one installs nothing.
- Local.StageRuleRoundTrip: the stage's own handling of the rule is not part of this model.
