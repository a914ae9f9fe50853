# Auren Transfer Agent: verified core

A Dafny model of the parts of the Auren Transfer Agent whose correctness is not visible from
one function: the job engine, the failover planner, the configuration loader, the byte transfer
paths, the rate limiter, secret redaction, the console log writer and the two concurrency
trackers. `dafny verify dfyconfig.toml` checks everything.

| file | what it models |
|---|---|
| Text, Scalars | Go's trimming, number formatting, quoting and scalar re-typing |
| Jobs, Queue | jobs and the bounded queue |
| Sharing, Engine | what other users do to the queue meanwhile, and one dispatcher cycle |
| Runs, Answers, Accounts, Losses | whole runs of cycles, saves and restarts: what is kept, what handlers' answers lead to, how often they run, what is lost |
| Failover | load balancing, leader election, failover planning, the agent registry's listing |
| ConfigTree, EnvNames | merge, defaults, environment overrides and the names of their variables |
| Yaml, YamlText, Indentation, AgentConfig, YamlTrees | the YAML parser, its printer, where lines land, the agent's own file, round trips of whole trees |
| Plans, Copying, Resuming, MultipartDownload, Auren | multipart plans, chunked copy, resumed transfers, range downloads, the Auren protocol |
| RateLimit, Redaction, Console | traces of rate-limited calls, secret replacement, streamed log lines |
| Transfers, Gateway | interleavings of transfer executions and of gateway handlers |

## How the model is built

State that the code changes in place is a class or a loop, and every such method is tied by its
contract to a function on values; the results are then proved about those functions. What the
code does not decide is a parameter that every result quantifies over: the order in which the
queue's lock serves workers, the handler's answers, clock readings, how many calls see a live
context, what a reader, a writer or a server does at each call. Concurrency is a step system
over the atomic sections the code protects with a mutex.

During a dispatcher cycle other users may enqueue and close at any point: before any poll and
before any retry. A job that arrives in time for a poll is listed right before the poll that
takes it, because the queue serves in order and an empty poll has no effect; every other arrival
is listed before the retry that finds it in the queue; a poll that finds the queue just closed
takes nothing and is left out of the cycle's polls. Whatever arrives goes through Enqueue and its
checks.

Go's nested configuration maps are references, and the parser's section stack aliases them. The
model keeps that: maps are numbered cells of a heap and an entry holds a scalar or a number.

Statuses and job types are strings that the code compares both exactly and after trimming; the
model keeps the distinctions it can observe (a name, a name with white space around it, empty,
anything else). Instants are integers, 0 being Go's zero time. Load ratios are exact; the
float64 comparison agrees with them for loads between 0 and the capacity and capacities up to
2^26, because two distinct such ratios differ by at least 2^-52 while each division is off by at
most 2^-54.

## What the proofs found

- A cycle loses a job in the following ways and no other (`Losses.CycleLosesNothing`, and
  `Losses.RunLosesNothing` for whole runs). The job was restored from a snapshot with no attempt
  left (`Losses.AtLimitIsLost`). Its handler returned a terminal status with white space around
  it. Or it failed and the queue refuses to take it back: the context has ended, as at shutdown
  (`Losses.CancelledIsLost`), the queue has been closed (`Losses.ClosedIsLost`), or other
  producers have filled it meanwhile (`Losses.FullIsLost`).
- The queue is saved at start-up and after an accepted job, but not after a cycle, so a cycle that
  runs anything leaves an old snapshot (`Accounts.CycleOutdates`). A restart conserves a job
  exactly if the snapshot holds it as often as the queue (`Runs.RestartConserves`), and each
  restart from an old snapshot may run a job up to its attempt limit once more
  (`Accounts.HandlerRunsBounded`).
- A partial download that already holds the whole resource can never be finished with resume
  enabled, because every further attempt asks for a range past the end
  (`Resuming.CompletePartialIsStuck`). An attempt that fails after everything arrived leads
  there, nothing else does, and every other download can be finished
  (`Resuming.DownloadsCanFinish`).
- With resume disabled the reported byte count includes the truncated old partial file
  (`Resuming.ReportedCount`).
- Concurrent executions of the same transfer UUID count once, so a limit above one does not
  bound the executions in flight at all (`Transfers.LimitHoldsUpToOne`).
- The rate limiter admits at most 2 * limit - 1 calls in any interval of one window length, one
  fewer than two full windows, and that bound is reached (`RateLimit.BoundIsTight`).
- Lines of a configuration file land in the wrong section exactly when some line is indented more
  than one level past the header before it, or at all past the scalar before it: a header leaves
  the deeper sections before it open (`Indentation.StaleSection`), and a scalar the section of
  its own level (`Indentation.ScalarKeepsSection`). The parser accepts both
  (`Indentation.PlacedIffIndented`).
- One environment variable may override several configuration paths; it does so exactly for
  paths with the same words (`EnvNames.SameVariable`).
- A secret with brackets may survive redaction. Among whatever other secrets, a secret is always
  removed exactly if it does not overlap the placeholder (`Redaction.AlwaysRemovedIff`). When it
  is the only secret the exact condition is weaker (`Redaction.RemovedIffNotLeaky`), and the
  difference is real (`Redaction.AloneIsNotEnough`).
- A digit is refused in a file for a flag that takes it from the environment
  (`AgentConfig.KindsAreKept`); unlike a file, the environment changes no string on the way
  (`AgentConfig.EnvironmentRoundTrip`).
- A wrong checksum is found only after the downloaded file is in place, and it stays there
  (`Resuming.DownloadDecided`).
- The planners' 64-bit arithmetic goes wrong for a sum of sizes past 2^63, except for one part
  with an enormous part size (`Plans.FitsIsExact`). In the Auren adapter the panic comes after
  the upload was initiated and leaves it open (`Auren.AbortExactlyOnFailure`).
- The balance certificate of the failover planner is complete: no other placement of the same
  number of jobs satisfies it (`Failover.BalancedIsUnique`). It holds of the plan that is
  returned (`Failover.PlanIsSafe`).

## Model

| member | source | states |
|---|---|---|
| Jobs.JobCreated | internal/worker/job.go:76-127 | a job is created exactly from a proper input, with trimmed texts, the given or default type and attempts and the time of creation; it is valid and never attempted |
| Text.TrimCuts | internal/worker/job.go:76-127 | trimming removes all white space from both ends and nothing else |
| Queue.MemoryQueue.NewMemoryQueue | internal/queue/memory.go:46-51 | a queue is created exactly for a positive capacity, empty and open |
| Queue.MemoryQueue.Enqueue | internal/queue/memory.go:54-85 | refusals in the code's order (context, validation, status, closed, full); otherwise the job is appended, marked queued, and the capacity bound is kept |
| Queue.RefusedBecause | internal/queue/memory.go:54-85 | each refusal with its exact condition: a cancelled context hides everything else, an unfit job is told before the state of the queue, a closed queue is not also called full |
| Queue.MemoryQueue.Dequeue | internal/queue/memory.go:88-111 | first in, first out; errors and the empty queue change nothing |
| Runs.RestartFromSnapshot | internal/queue/persistence.go:179-203 | a queue saved and restored into a new one of the same capacity comes back whole and in order, unless the driver name is blank or the context ends on the way |
| Queue.Restore | internal/queue/persistence.go:179-194 | a valid snapshot is restored from the front, in order, as far as capacity, context and an open queue allow; success means all of it |
| Queue.SnapshotIsRestorable | internal/queue/persistence.go:205-224 | a snapshot is accepted if and only if its head is in order and an open queue with room would take each of its jobs |
| Runs.SaveThenRestart | internal/bootstrap/bootstrap.go:250-262 | a restart right after a save brings the whole queue back in order |
| Engine.FinalStatus | internal/worker/worker.go:136-148 | the status a handler result leads to is always terminal |
| Engine.WorkerRunOnce | internal/worker/worker.go:105-180 | one poll takes the oldest job and reports its execution, or changes nothing |
| Answers.ExecutionAnswered | internal/worker/worker.go:124-171 | a job at its limit is reported unchanged with an error; any other has spent one attempt, carries the handler's time, has succeeded or failed exactly as the handler's answer says, and is reported with an error exactly for an error or a status that is not terminal |
| Answers.ExecutionRead | internal/dispatcher/dispatcher.go:100-118 | which jobs the dispatcher reads as succeeded, exhausted, to be retried or neither, from the handler's answer alone |
| Sharing.AllSent | internal/dispatcher/dispatcher.go:112-116 | all retries go back if and only if none of them is refused |
| Sharing.OutcomeSum | internal/dispatcher/dispatcher.go:112-116 | whatever others add meanwhile, the queue ends with what it held, what it accepted and the retries that went back, counted by any quantity |
| Sharing.LevelIsFaced | internal/dispatcher/dispatcher.go:112-116 | how full and whether closed the queue is that a retry finds depends only on the length before and on what others did |
| Engine.PoolRunOnce | internal/worker/pool.go:71-97 | for every order of polls, and for jobs that arrive between them, the result slots and the remaining queue are those of the atomic dequeues in that order |
| Engine.PolledTally | internal/worker/pool.go:81-89 | whatever the poll order, the result slots hold what the front of the queue became, counted by any predicate and weight |
| Engine.PolledSum | internal/worker/pool.go:81-89 | any quantity summed over the executed jobs equals the matching quantity over the front of the queue |
| Engine.Classified | internal/dispatcher/dispatcher.go:95-120 | succeeded, exhausted, retryable and unrecognised cover the executed jobs exactly once |
| Engine.InWorkerOrder | internal/dispatcher/dispatcher.go:95-120 | jobs of one reading are taken in the order of their workers |
| Answers.CycleAnswered | internal/dispatcher/dispatcher.go:95-120 | the jobs a cycle reports under each reading are, by any quantity that execution does not change, those whose handlers say so |
| Answers.CycleCounts | internal/dispatcher/dispatcher.go:95-120 | the counters of a cycle are the numbers of taken jobs whose handlers succeed, fail for good, fail with attempts left, or neither |
| Engine.ExecutedCount | internal/dispatcher/dispatcher.go:95-104 | a cycle executes exactly the jobs it takes, so it never retries more than it took |
| Engine.RetryFailed | internal/dispatcher/dispatcher.go:104-118 | a failed job is put back exactly when attempts are left and the queue takes it; a cancelled context, a closed queue and a full one are told apart |
| Engine.Interfere | internal/server/worker_api.go:176-183 | other producers' jobs go through Enqueue one after the other, and a close is seen by all that follows |
| Engine.ReadOne | internal/dispatcher/dispatcher.go:95-119 | one result is counted under its reading and its job put back if it should be retried, into the queue as others have left it by then |
| Engine.Requeue | internal/dispatcher/dispatcher.go:95-120 | retries are appended in worker order until the queue refuses one, whatever others do before each of them; which refusal ended the loop; otherwise the counters are the counts of the four readings |
| Engine.DispatcherRunOnce | internal/dispatcher/dispatcher.go:73-127 | queue, counters and error of a cycle for any jobs that arrive before any poll or any retry and a close at any point |
| Engine.QuietCycle | internal/dispatcher/dispatcher.go:112-116 | if nobody else touches the queue, a retry is never refused for capacity: only a cancelled context cuts the retries short |
| Runs.CycleConserves | internal/dispatcher/dispatcher.go:95-120 | a cycle moves each job it takes into exactly one place (back in the queue, succeeded, exhausted, unrecognised, or not sent back): over all places any quantity grows by what arrived and what the executions added |
| Runs.CycleKeepsQueued | internal/dispatcher/dispatcher.go:105-118 | after a cycle, whatever arrived during it, every queued job is valid and the capacity holds |
| Runs.RunSound | internal/dispatcher/dispatcher.go:73-127 | in every run of offers, cycles with any interference, closes, saves and restarts, queue and snapshot are valid and within capacity, and unless a restart found an old snapshot nothing accepted is forgotten or duplicated |
| Answers.TurnAnswered | internal/dispatcher/dispatcher.go:95-120 | a cycle enters a job as succeeded or failed for good exactly as often as its handler says so |
| Answers.RunAnswered | internal/dispatcher/dispatcher.go:73-127 | and so over every run, with any interference, closes, saves and restarts |
| Runs.RestartConserves | internal/bootstrap/bootstrap.go:250-262 | a restart conserves a job if and only if the snapshot holds it as often as the queue did |
| Runs.SnapshotAccepted | internal/queue/persistence.go:197-224 | a snapshot of a sound queue is always valid, so it is accepted back |
| Runs.CycleSpendsAttempts | internal/worker/worker.go:124-128 | apart from what arrives, the attempts left in the queue drop by at least the number of jobs executed |
| Runs.CycleKeepsPending | internal/dispatcher/retry.go:44-69 | no queued job runs out of attempts if none had and no arrival has |
| Runs.AttemptsRunDown | internal/dispatcher/retry.go:44-69 | over any series of cycles each cycle spends at least one attempt until the queue is empty |
| Runs.QueueDrains | internal/dispatcher/retry.go:44-69 | without new producers the queue is empty after at most as many cycles as attempts are left |
| Accounts.RunCounted | internal/worker/worker.go:124-150 | in every run of fresh offers the calls of the handler stay within each job's budget; until a restart finds an old snapshot they are exactly the attempts its copies show, and an exhausted job has used all of them |
| Accounts.HandlerRunsBounded | internal/dispatcher/retry.go:51-53 | a job is handed to the handler at most maxAttempts times for each time it was accepted, and once more that often for each restart from an old snapshot |
| Accounts.CycleOutdates | internal/server/worker_api.go:184-191 | a cycle that runs anything makes a snapshot taken before it old |
| Losses.DropsNothing | internal/dispatcher/dispatcher.go:100-104 | a cycle loses no job to exact status comparison if and only if no job it takes had no attempt left or gets a padded terminal status from its handler |
| Losses.CycleLosesNothing | internal/dispatcher/dispatcher.go:95-120 | a cycle loses nothing if and only if no job it takes is of those two kinds and every retry finds a live context and an open queue with room, whatever others did before it |
| Losses.RunLosesNothing | internal/dispatcher/dispatcher.go:95-120 | a run, whatever is offered and whoever else uses the queue, has lost nothing if and only if that holds of every cycle in it |
| Losses.CancelledIsLost | internal/dispatcher/dispatcher.go:112-115 | a failed job with attempts left is in no place when the context ends before it is sent back |
| Losses.ClosedIsLost | internal/dispatcher/dispatcher.go:112-115 | the same when the queue is closed before it is sent back |
| Losses.FullIsLost | internal/dispatcher/dispatcher.go:112-115 | the same when another producer's job takes the last room; the queue then holds that one |
| Losses.NothingLost | internal/dispatcher/dispatcher.go:95-120 | with fresh offers between the cycles, canonical handler statuses, a live context and an open queue no run ever loses a job |
| Losses.EveryJobInOnePlace | internal/dispatcher/dispatcher.go:95-120 | after any such run without a restart from an old snapshot an accepted job is in exactly one of queue, succeeded, or failed with all attempts used |
| Losses.AtLimitIsLost | internal/worker/worker.go:124-128 | a job with no attempt left is accepted in a snapshot; the cycle that takes it refuses it, and it is in no place |
| Failover.LeastExists | internal/cluster/cluster.go:253-273 | the selection yields an eligible agent below every other, or none if none is eligible |
| Failover.LeastUnique | internal/cluster/cluster.go:264-272 | under a strict order the selected agent is the one and only least |
| Failover.BeforeIs | internal/cluster/cluster.go:264-301 | strings are ordered by their first difference |
| Failover.LessLoadedIs | internal/cluster/cluster.go:264-271 | the load order is that of active jobs over capacity, compared by cross-multiplication, ties going by ID |
| Failover.ValidLoad | internal/cluster/cluster.go:206-240 | a valid agent uses between none and all of its capacity |
| Failover.Selected | internal/cluster/cluster.go:253-273 | the least loaded agent has room and a smaller share of its capacity in use than every other agent with room, ties going by ID |
| Failover.BumpFirst | internal/cluster/cluster.go:342-347 | the load of the first agent with the target's ID grows by one |
| Failover.PlacementFilled | internal/cluster/cluster.go:332-348 | every agent ends with its load plus the jobs it was given, never over capacity, and agents without room get none |
| Failover.PlacementMaximal | internal/cluster/cluster.go:332-348 | jobs are served in order, each uses one free slot, and a job is left over only when no slot is free |
| Failover.PlacementBalanced | internal/cluster/cluster.go:332-348 | the balance certificate: an agent's load before its last job is below every other eligible agent's final load, ties by ID |
| Failover.LoadAdds | internal/cluster/cluster.go:342-347 | a plan loads the agents by exactly the number of its assignments |
| Failover.BalancedIsUnique | internal/cluster/cluster.go:332-348 | any placement of the same number of jobs with that certificate loads every agent exactly as the planner does |
| Failover.AssignedCount | internal/cluster/cluster.go:336-341 | the number assigned is the smaller of jobs and free slots, they are the first jobs, the rest is the remaining suffix |
| Failover.SamePlacement | internal/cluster/cluster.go:332-348 | permuting agents with unique IDs changes no assignment |
| Failover.PlanIgnoresOrder | internal/cluster/cluster.go:318-352 | plans for two listings of the same agents make the same assignments and leave the same jobs; for distinct job IDs they are identical |
| Failover.PlanFailover | internal/cluster/cluster.go:318-352 | a plan exists exactly for a valid failed ID and valid jobs; it holds the greedy placement sorted by job ID, and is safe |
| Failover.PlanIsSafe | internal/cluster/cluster.go:318-352 | the failed agent gets nothing, receivers were eligible and stay within capacity, as many jobs as eligible agents have room for are assigned, the first ones, the rest is left over, and before its last job every receiver had a smaller share of its capacity in use than every other eligible agent has in the end |
| Failover.LeaderLeads | internal/cluster/cluster.go:284-302 | there is a leader exactly if an agent is available; it is available, no available agent has a smaller fingerprint, ties go by ID, and all available agents are counted |
| Failover.OneLeads | internal/cluster/cluster.go:294-301 | only one agent leads in that sense |
| Failover.LeaderIgnoresOrder | internal/cluster/cluster.go:284-302 | the result of an election does not depend on the listing |
| Failover.LeaderIsStable | internal/cluster/cluster.go:284-302 | removing a non-leader keeps the leader, adding an agent keeps it or elects the new one, and the number of candidates follows |
| Failover.Registry.Register | internal/cluster/cluster.go:97-108 | exactly a valid record is entered under its ID; every other entry stays, and an invalid record changes nothing |
| Failover.Registry.List | internal/cluster/cluster.go:164-182 | the listing holds every registered agent once, in ID order |
| Scalars.AtoiItoa | internal/config/vipercompat/viper.go:275-277 | every 64-bit number is read back from its decimal text |
| Scalars.ItoaAtoi | internal/config/vipercompat/viper.go:275-277 | numeric text prints back as itself exactly when it has no plus sign and no superfluous zero |
| Scalars.OtherSpellings | internal/config/vipercompat/viper.go:275-277 | a plus sign and leading zeros are read too |
| Scalars.RetypeKeepsText | internal/config/vipercompat/viper.go:273-282 | re-typing leaves a string readable as itself exactly when it is no odd spelling of a number or truth value |
| Scalars.QuotedStringSurvives | internal/config/vipercompat/viper.go:273-282 | a quoted string loads as itself if and only if nothing in it is escaped, it has no quote at either end, and re-typing keeps its text |
| ConfigTree.MergeInto | internal/config/vipercompat/viper.go:186-199 | the in-place merge gives the same tree in whatever order keys are visited |
| ConfigTree.MergedLeaf | internal/config/vipercompat/viper.go:186-199 | a merged scalar is the file's, else the default's unless the file uses the path in another shape |
| ConfigTree.MergeIntoEmpty | internal/config/vipercompat/viper.go:186-199 | the empty tree is neutral on either side of a merge |
| ConfigTree.MergeIdempotent | internal/config/vipercompat/viper.go:186-199 | merging the same tree twice equals merging it once |
| ConfigTree.OverrideInto | internal/config/vipercompat/viper.go:284-296 | the in-place overrides give the same tree in whatever order keys are visited |
| ConfigTree.OverriddenLeaf | internal/config/vipercompat/viper.go:284-296 | exactly the existing scalars with a nonempty variable are replaced, by its text |
| ConfigTree.Precedence | internal/config/config.go:250-312 | every loaded scalar is the nonempty environment value, else the file's, else the default |
| EnvNames.NameSpells | internal/config/vipercompat/viper.go:298-310 | the variable read for a path is the one whose name has the pieces of the prefix, if there is one, and then the words of the path |
| EnvNames.NameLetters | internal/config/vipercompat/viper.go:298-310 | every letter is capitalised, dots become underscores, the prefix stays as it is |
| EnvNames.PortVariable | internal/config/config.go:307-312 | the server's port is read from AUREN_SERVER_PORT |
| EnvNames.SameVariable | internal/config/vipercompat/viper.go:298-310 | two paths are overridden by the same variable if and only if their keys, cut at dots and underscores, give the same capitalised words |
| EnvNames.UniqueVariable | internal/config/vipercompat/viper.go:298-310 | paths of keys without separators and without capitals, in any alphabet, never share a variable |
| EnvNames.SharedVariables | internal/config/vipercompat/viper.go:298-310 | an underscore moved between keys, a key cut in two, and keys that differ in capitals only give the same variable |
| EnvNames.OneVariable | internal/config/vipercompat/viper.go:284-310 | setting a variable of any name to any text decides exactly the written scalars whose paths it spells: they become the text, or stay as written if it is empty |
| EnvNames.NoVariable | internal/config/vipercompat/viper.go:284-310 | without variables everything is loaded as written |
| ConfigTree.SetThenGet | internal/config/vipercompat/viper.go:165-184 | what every path finds after setting any dotted key: the value under its nonblank parts, nothing where the way made a section, the old value elsewhere; a key ending in a blank part makes sections only |
| Yaml.ResolveFrame | internal/config/vipercompat/viper.go:240-247 | a tree depends only on maps created after its own |
| Yaml.ReadsBack | internal/config/vipercompat/viper.go:201-252 | any nested document, at any depth and in any parser state that is ready for it, is read as what it means, and nothing else changes |
| Indentation.PlacedIffIndented | internal/config/vipercompat/viper.go:229-271 | every entry of an accepted file lands in the map of its enclosing header if and only if no line is indented more than one level past the header before it, or at all past the scalar before it |
| Indentation.FilePlacedIffIndented | internal/config/vipercompat/viper.go:201-252 | the same for the text of any file that parses |
| Indentation.AcceptedIff | internal/config/vipercompat/viper.go:201-252 | a file is accepted if and only if no line is refused and the level of every indented entry has been opened by a header that no scalar has closed since |
| Indentation.CommentsAreInvisible | internal/config/vipercompat/viper.go:208-210 | comments and blank lines change nothing |
| Indentation.PrintedIsIndented | internal/config/vipercompat/viper.go:229-249 | every printed document meets that condition |
| Indentation.StaleSection | internal/config/vipercompat/viper.go:240-245 | a header leaves deeper sections open, so a line two levels below it goes into the old one |
| Indentation.ScalarKeepsSection | internal/config/vipercompat/viper.go:247-271 | a scalar keeps the section of its own level open, so a line below it goes into that one |
| YamlText.LineReadsBack | internal/config/vipercompat/viper.go:205-239 | a printed line is read with its indentation, key and value |
| YamlText.EveryLineRead | internal/config/vipercompat/viper.go:205-239 | every line: blank lines and comments are skipped; any other is an entry exactly if it is no list item, is indented by an even number of blanks and has a key before its first colon; which indentation, key and value it has |
| YamlText.LeadingSpacesAre | internal/config/vipercompat/viper.go:254-263 | the indentation is the number of blanks a line begins with |
| YamlText.SplitIs | internal/config/vipercompat/viper.go:205 | any text is its lines with newlines between them |
| YamlText.SplitJoin | internal/config/vipercompat/viper.go:205 | splitting joined lines gives them back |
| YamlText.ParseSimpleYAML | internal/config/vipercompat/viper.go:201-252 | the loop applies the lines one after the other and stops at the first error |
| YamlText.RoundTrip | internal/config/vipercompat/viper.go:201-282 | parsing the text of any nested document gives the tree it means |
| YamlTrees.TreeRoundTrip | internal/config/vipercompat/viper.go:201-282 | any nested tree, printed with two-space indentation, parses back to itself if and only if each of its scalars is read back as itself |
| YamlTrees.ScalarReread | internal/config/vipercompat/viper.go:273-282 | the scalars that are: 64-bit numbers, truth values, and strings with nothing to escape, no quote at either end and no likeness to either |
| YamlTrees.PrintedTreeRoundTrip | internal/config/vipercompat/viper.go:201-282 | so a tree written in the renderer's format survives exactly if all its scalars are of these kinds |
| AgentConfig.FieldInFile | internal/bootstrap/linux_package.go:601-758 | every field is found in the written file under its section, as the text written for it |
| AgentConfig.ValueLoads | internal/config/vipercompat/viper.go:354-391 | numbers and truth values always load back; a string exactly when it survives |
| AgentConfig.KindsAreKept | internal/config/vipercompat/viper.go:354-391 | which scalars a field of each kind takes; a digit in a file is refused for a flag that takes it from the environment |
| AgentConfig.EnvironmentLoads | internal/config/vipercompat/viper.go:354-391 | a written field takes any text of its variable as a string, and as a number or truth value exactly a spelling of it |
| AgentConfig.EnvironmentRoundTrip | internal/config/vipercompat/viper.go:284-391 | every value gets through the environment unchanged |
| AgentConfig.AgentConfigRoundTrip | internal/bootstrap/linux_package.go:601-758 | the rendered file always parses, and loading it over any defaults gives back the configuration if and only if every string survives |
| Plans.CutIntoParts | internal/download/multipart.go:66-73 | the loop on wrapping 64-bit integers yields the planned parts for every size that fits; otherwise which of panic and wrapped sum comes first |
| Plans.FitsIsExact | internal/download/multipart.go:66-73 | sizes fit if and only if the reserved room is not negative and the second part, if there is one, does not end before it starts |
| Plans.NewPlan | internal/upload/multipart.go:41-60 | refusal exactly of a negative size or a part size that is not positive; an empty file has one empty part |
| Plans.NewMultipartPlan | internal/download/multipart.go:59-75 | refusal exactly of sizes that are not positive |
| Plans.PartsTile | internal/download/multipart.go:67-73 | parts follow each other without gap or overlap from start to end, full except the last, numbered in order |
| Plans.CoveredOnce | internal/download/multipart.go:67-73 | every byte offset is in exactly one part |
| Plans.SlicesAssemble | internal/download/multipart.go:169-190 | the planned slices of a file put together are the file |
| Plans.LengthsAdd | internal/download/multipart.go:131-136 | pieces of the planned lengths add up to the file size |
| Copying.CopyLimited | internal/upload/multipart.go:181-211 | whatever reader and writer do, what was written is what came next in the source; success means the full amount; without faults it succeeds; it always ends |
| Copying.CopyAll | internal/upload/local.go:79-86 | copying to the end writes a prefix of the rest of the source, and all of it on success |
| Copying.Upload | internal/upload/local.go:75-87 | the plain upload leaves a prefix of the source, and the source on success |
| Copying.MultipartCopy | internal/upload/multipart.go:102-141 | the multipart upload leaves a prefix of the source; on success every part has its planned length, they add up to the planned size, and the result is that of the plain upload exactly if the file still has that size |
| Resuming.ResumeUpload | internal/upload/resume.go:30-126 | one attempt appends the next source bytes or nothing, refuses a longer destination, and succeeds without faults |
| Resuming.ResumeKeepsPrefix | internal/upload/resume.go:50-125 | through any sequence of attempts a prefix stays a prefix and never shrinks, and a success completes it |
| Resuming.SuccessMeansEqual | internal/upload/resume.go:62-65 | a successful attempt makes the files equal if and only if the destination was a prefix |
| Resuming.NewResumeState | internal/download/resume.go:31-48 | a range is asked for from the existing size exactly when enabled, nonempty and not complete; complete means enabled and at least the known total |
| Resuming.JobDirectory.Download | internal/transfer/executor.go:341-424 | the partial and final files and the reported count after one attempt |
| Resuming.DownloadDecided | internal/transfer/executor.go:341-424 | when an attempt writes, places the file and succeeds, from settings, answer and old partial file alone, and what is then on disk |
| Resuming.DownloadKeepsPrefix | internal/transfer/executor.go:365-409 | against a conforming server the partial file stays a prefix, and whatever is moved into place is the resource |
| Resuming.DownloadsKeepPrefix | internal/transfer/executor.go:341-424 | the same through any sequence of interrupted and resumed attempts |
| Resuming.IntactAnswerFinishes | internal/transfer/executor.go:365-409 | an accepted answer that arrives whole leaves the resource and no partial file |
| Resuming.FinishableUnlessStuck | internal/transfer/executor.go:341-424 | some conforming answer finishes the download if and only if nothing local stands in the way and the partial file is not complete with resume enabled |
| Resuming.StuckByStranding | internal/transfer/executor.go:395-409 | an attempt leaves a complete partial file if and only if there was one, or everything arrived and then something failed |
| Resuming.DownloadsCanFinish | internal/transfer/executor.go:341-424 | after any sequence of attempts with resume enabled the download can be finished if and only if nothing local stands in the way and no attempt failed after everything had arrived |
| Resuming.DownloadsFinish | internal/transfer/executor.go:341-424 | a sequence of attempts that ends in an accepted answer arriving whole ends with the resource in place |
| Resuming.ReportedCount | internal/transfer/executor.go:380-402 | the reported count is the file length if and only if resume was enabled or there was no partial file |
| Resuming.CompletePartialIsStuck | internal/transfer/executor.go:370-375 | a complete partial file makes every later attempt fail without effect |
| MultipartDownload.StreamParts | internal/download/multipart.go:113-137 | all parts arrived exactly if each stream succeeded with its planned length |
| MultipartDownload.StreamedIff | internal/download/stream.go:78-96 | a part is taken exactly from a 206 answer that arrives whole, and is its body |
| MultipartDownload.MergeParts | internal/download/multipart.go:169-190 | the merged file is the part files in order |
| MultipartDownload.MultipartToFile | internal/download/multipart.go:85-147 | success means a plan and exactly the total size for any server, and the resource itself for a server that serves the slices; such a server succeeds if the part files can be read back |
| Auren.SendParts | internal/storage/auren.go:254-287 | the calls are the planned parts in order up to the first failure |
| Auren.AurenAdapter.MultipartUpload | internal/storage/auren.go:238-297 | the calls made and the result, for every behaviour of server and file, and the panic when no room can be reserved |
| Auren.AbortExactlyOnFailure | internal/storage/auren.go:238-292 | a run that holds an upload ID completes without abort or fails with exactly one, except that a panic leaves the upload open; without an ID there is no abort |
| Auren.CompleteComesLast | internal/storage/auren.go:256-292 | every uploaded part is the planned range of its number, and complete is called only after all of them succeeded |
| Auren.PartNumbers | internal/storage/auren.go:256-264 | part i + 1 starts after i full parts and is full or reaches the end |
| Auren.ReportedSizes | internal/storage/auren.go:269-288 | complete reports the sizes of the parts in order |
| RateLimit.RateLimiter.New | internal/security/security.go:309-317 | a limiter exists for a nonnegative limit and a positive window |
| RateLimit.RateLimiter.Allow | internal/security/security.go:330-351 | the decision and the new entry; a denied call changes nothing, other keys never change |
| RateLimit.SharedEntry | internal/security/security.go:334-337 | two keys share an entry exactly if they agree after trimming, a blank one counting as anonymous |
| RateLimit.RefusedIff | internal/security/security.go:330-351 | a call is refused if and only if there is a limit, the key's window has admitted that many calls and has not run out |
| RateLimit.WindowBound | internal/security/security.go:340-350 | each window of a key admits at most the limit, even with a clock that runs backwards |
| RateLimit.IntervalBound | internal/security/security.go:340-350 | any interval of one window length admits at most 2 * limit - 1 calls of a key |
| RateLimit.BoundIsTight | internal/security/security.go:340-350 | a trace with nonzero nondecreasing times reaches that bound |
| RateLimit.KeysAreIndependent | internal/security/security.go:334-350 | decisions under one key are as if calls under other keys had not happened |
| Redaction.BlankKeepsRest | internal/security/security.go:403-405 | a replacement takes the text apart at the secret from the left, puts placeholders there and keeps everything else |
| Redaction.NothingCreated | internal/security/security.go:403-405 | replacing one secret never creates an occurrence of another that does not overlap the placeholder |
| Redaction.CreatedIffOverlap | internal/security/security.go:403-405 | a word is never created by replacing other secrets, no longer than itself, if and only if it does not overlap the placeholder |
| Redaction.Removed | internal/security/security.go:403-405 | replacing a secret that is not leaky leaves no occurrence of it |
| Redaction.RemovedIffNotLeaky | internal/security/security.go:403-405 | the only secret is removed from every input if and only if no end of the placeholder runs into it, and none of its ends runs into the placeholder behind a beginning in which it is not itself found |
| Redaction.OverlapWithoutLeak | internal/security/security.go:403-405 | for the only secret, overlapping the placeholder is not enough to leak |
| Redaction.RemovedAmongOthers | internal/security/security.go:394-407 | a secret that does not overlap the placeholder is removed from every input, whatever the other secrets are and in any order of replacement |
| Redaction.AlwaysRemovedIff | internal/security/security.go:394-407 | a secret of at least four bytes is removed from every input, among whatever other secrets in the order that longest first allows, if and only if it does not overlap the placeholder |
| Redaction.AloneIsNotEnough | internal/security/security.go:400-407 | a secret that is always removed when it is the only one may survive beside another of the same length |
| Redaction.RedactionComplete | internal/security/security.go:394-407 | bracket-free secrets are removed from every input, in any order of replacement, if and only if none is part of the placeholder's word |
| Redaction.BracketLeak | internal/security/security.go:403-405 | a secret with a bracket that a replacement puts together again |
| Redaction.HiddenWhole | internal/security/security.go:402-405 | longest first, every secret that stands alone is replaced as a whole, even one that contains another |
| Redaction.ShorterFirstShows | internal/security/security.go:402 | shortest first would show the end of a longer secret |
| Redaction.Redact | internal/security/security.go:394-407 | the secrets of at least four bytes, each as often as stored, are replaced longest first, and each that does not overlap the placeholder is gone, whatever the others are |
| Console.ConsoleWriter.Write | internal/logger/console.go:43-76 | output, buffer and result of one write, also when the underlying writer refuses a line after writing part of it |
| Console.PrintLines | internal/logger/console.go:56-73 | the loop prints the complete lines up to the first refused print |
| Console.LineShown | internal/logger/console.go:63-69 | a log event is printed as formatted, any other line without the white space around it, nothing for what is blank |
| Console.FailsIff | internal/logger/console.go:56-73 | a write fails exactly if the underlying writer takes fewer prints than there are lines to print |
| Console.LineByLine | internal/logger/console.go:56-73 | every complete line is printed once, in order, and nothing else |
| Console.RestIsTail | internal/logger/console.go:57-61 | the retained buffer is exactly the text after the last newline |
| Console.ChunkingIndependence | internal/logger/console.go:43-76 | any way of cutting a stream into writes gives the same output and buffer |
| Console.FailureLosesOneLine | internal/logger/console.go:70-72 | a refused print loses exactly what it did not write of its one line; what was printed before and the rest, printed later, are as without faults |
| Transfers.Tracker.TryStartJob | internal/transfer/stats.go:58-73 | a job becomes active exactly when fewer than the maximum are |
| Transfers.Tracker.UpdateJob | internal/transfer/stats.go:76-112 | a report changes the details of an active job and never the set of active jobs |
| Transfers.ReportsConsistent | internal/transfer/stats.go:76-112 | through any series of reports the four figures are those of the last report that had any, all texts are the last nonempty ones, and the job keeps its identity |
| Transfers.Tracker.Finish | internal/transfer/stats.go:115-124 | the job is no longer active and one counter grows |
| Transfers.Tracker.Snapshot | internal/transfer/stats.go:127-139 | the snapshot lists every active job once, in the order they started, with the counts |
| Transfers.EveryRunSound | internal/transfer/executor.go:102-168 | in every interleaving the tracker stays within its maximum, starts are in flight, completed or failed, and each started execution makes exactly one terminal callback |
| Transfers.EveryStory | internal/transfer/executor.go:102-168 | in every interleaving each execution is where its own events lead, and has made the one terminal callback that goes with them |
| Transfers.EveryOutcomeCounted | internal/transfer/executor.go:109-168 | in every interleaving completed counts exactly the executions downloaded, uploaded and reported without error, and failed the others that got as far |
| Transfers.ExactUntilDuplicate | internal/transfer/stats.go:58-73 | the tracker's count of executions in flight stays exact if and only if no UUID is started while active |
| Transfers.ConcurrencyBound | internal/transfer/executor.go:102-110 | with distinct concurrent UUIDs the maximum bounds the executions, and starts equal active plus completed plus failed |
| Transfers.BurstRuns | internal/transfer/stats.go:61-71 | from an empty tracker with a limit of at least two, any number of executions of one UUID get in flight together |
| Transfers.LimitHoldsUpToOne | internal/transfer/stats.go:58-73 | the limit bounds the executions in flight of every run if and only if it is at most one |
| Gateway.Tracker.Start | internal/gateway/tracker.go:55-69 | a session is entered with no bytes under its ID, or under the generated one if it brings none, and no other session changes |
| Gateway.Tracker.AddBytes | internal/gateway/tracker.go:72-84 | positive amounts are added to the session, entering it if missing, and to the total |
| Gateway.Tracker.Close | internal/gateway/tracker.go:97-106 | the session is removed and its bytes returned |
| Gateway.EveryRunSound | internal/gateway/runtime.go:147-170 | in every interleaving, shared IDs included, every session belongs to a handler in flight, none is left when all are done, and the total is the sum of all positive additions |
| Gateway.MatchedUntilShared | internal/gateway/runtime.go:147-170 | sessions and handlers that correspond one to one with the right byte counts keep doing so with the next step if and only if it does not enter an ID in use |
| Gateway.ExclusiveMatched | internal/gateway/runtime.go:147-170 | they correspond at every point of a run if and only if no ID was ever shared in it |

## Left out

- Job headers, metadata, worker messages and the retry notes in metadata: carried along, decide nothing.
- The list of validation messages: the model keeps whether a record is valid.
- UUID, fingerprint, host name and URL recognition, UUID generation: libraries; every result holds for any choice of them.
- A dispatcher without a retry queue, or with one other than the workers' queue.
- Saves that fail and snapshot files damaged on disk: a run's restarts find the last snapshot that was saved.
- Registry heartbeat updates: they keep no invariant the planner needs.
- AgentConfig.AgentConfigRoundTrip: the list of sections and keys is any list of distinct well-formed names rather than the fixed one of the renderer, which is such a list; a field with no entry in the tree, which the loader leaves at zero, does not occur after rendering.
- Dotenv files, environment aliases, field validation and default tables of the configuration.
- Plans.CutIntoParts: what the loop goes on to do after a sum has wrapped, and running out of memory for very many parts.
- Auren.AurenAdapter.MultipartUpload: sizes for which room can be reserved only because the sum wrapped (both near 2^63), where the loop goes on with wrapped offsets; progress callbacks, checksums and ETags.
- Auren.SendParts: the same sizes, for the loop itself.
- Copying.MultipartCopy: a source file that changes while it is copied.
- Retries, redirects, headers, cookies and bandwidth limits of the HTTP client; responses are abstract outcomes.
- Loading secrets from a file and trimming them.
- Console.ConsoleWriter.Write: how a log event is formatted is a parameter.
- Lease renewal and control watching, which only add cancellation to a download or upload.
- Gateway.Tracker.AddBytes: the egress rate, last-seen times and wrap-around of the 64-bit counters.
- S3, Media Hub, queue adapters, dashboards, health and identity endpoints: plumbing over libraries.
