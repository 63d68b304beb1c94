# The memory pipeline, modelled and proved

Conversations with Claude become searchable memory through a chain of programs in which nothing may be lost: a
capture hook writes messages to a SQLite outbox, a drain carries them to Postgres, a microcontroller called Kata
takes jobs from one SQS queue, embeds them and hands results to another, and a facts service reads what has been
stored. This project models the parts of that chain where the hard promises are made, in the form the programs
have, and proves the promises.

| files | what they model |
|---|---|
| `Worker`, `Sqs`, `BatchPlan`, `Results` | Kata's worker against an SQS that refuses, redelivers, garbles and loses replies |
| `WorkerPool`, `WorkerJobs`, `WorkerBoard`, `WorkerHandoff`, `WorkerVisibility`, `WorkerAsks`, `WorkerPass`, `WorkerWaiting`, `WorkerUndelivered` | what the worker's pool is and becomes, as values: jobs and their fates, hand-off, visibility, what is asked of SQS, the pass, waiting |
| `OutboxTable`, `OutboxProtocol`, `OutboxDrain`, `OutboxLatest`, `OutboxMeaning`, `Postgres`, `Transcript` | the hook, the outbox and any number of drains, interleaved at every statement, or one at a time |
| `FactsSplit`, `FactsShared`, `FactsLate`, `FactsService`, `FactsRun`, `FactsEmbed` | the facts extractor, its progress over runs that die anywhere, messages with shared numbers or stored late, and the embedding of facts |
| `TokSpecials`, `TokUnicode`, `TokVocab`, `TokEncode`, `TokMeaning` | the tokeniser against a recursive specification, and what that comes to |
| `CardFile`, `PassPlan`, `PassReads`, `PassChunks`, `PassReader`, `PassTasks`, `PassForward`, `PassTruthful` | the streamed pass: two reader tasks under a computing one, from a card that may give anything or is truthful |
| `AgeStream`, `AgeIntegrity`, `Base64`, `JsonText`, `PrepTruncate`, `Dates`, `Bytes` | the codecs underneath |

How to read it:

- Methods follow the programs statement by statement and are proved against specification functions; the main
  theorems are lemmas about those functions, or invariants (`Valid`, `Inv`) that every method keeps.
- What a program cannot control is a value chosen freely: replies, failures, the order of tasks, when a process
  dies, whether memory holds. A parameter `healthy`, `plenty`, `well`, `clean` or `quiet` asks in addition what
  is achieved when those choices fall well; safety never depends on it.
- Every specification function a method is proved against has lemmas beside it that say what it comes to without
  naming it: the columns of a row, the bytes of a buffer, the fields of a result, the order of a queue. Their names
  mostly end in `Means`, `Is` or `OneMore`.
- The two queues, Postgres transactions and the card are state machines of their own, with a ghost log where a
  property speaks of every moment of a run.

Where the code and its documentation differ, the code is modelled:

- `esp32-embedder/worker/worker.h:13` says that no pass starts while any result is undelivered. The code makes sure
  of it only for what the first hand-off of a step left (`esp32-embedder/worker/worker.c:641-647`). Exactly what the
  second left, after new jobs have come in, is undelivered when a pass starts (`Worker.Step`): nothing if every job
  that came is pending, for then there is nothing to hand off. `WorkerUndelivered.UndeliveredAtPass` is a case where
  something is.
- The date parser's -1 for a malformed timestamp is also the value of one well-formed one (`Dates.MinusOne`). It
  takes any day up to 31 in any month and a second 60, and reads them as days and seconds further on
  (`Dates.DayRunsOver`, `Dates.SecondRunsOver`).
- The facts service takes sequence numbers to be strictly increasing within a conversation, but a message sent
  mid-turn shares the number before it. `FactsShared` proves exactly when resuming loses nothing then, and gives a
  conversation where it does lose an exchange. The run-level theorems are for strictly increasing numbers.
- It also takes messages to reach Postgres in their order. The drain takes rows that have failed last
  (`hook/hook/drain.py:80-103`), so one may be stored after messages with greater numbers: it is never read if and
  only if the mark has reached its number by then (`FactsLate.NeverReadIffNotAbove`), and a whole exchange can be
  lost so (`FactsLate.EarlyExchangeLost`). Above the mark, order does not matter (`FactsLate.AnyOrderAboveSound`).
- Redelivering a row is not always without effect: a vector that could not be had the first time may be had the
  second (`Postgres.RedeliveryAddsVector`). `Postgres.Redelivery` says exactly when nothing changes.

## Model

| member | source | states |
|---|---|---|
| `Worker.Worker.NothingIsLost` | esp32-embedder/worker/worker.c:332-404 | Custody: whatever the worker did, and at every moment while it was doing it, every message ever enqueued is in the ingest queue, in its dead-letter queue, or held byte for byte by a result the results queue has accepted |
| `Sqs.CarefulKeepsCustody` | esp32-embedder/worker/worker.c:101-130 | If nothing is deleted but what an accepted result already holds, nothing is ever lost, through redelivery, redrives and lost replies |
| `Sqs.CustodyThroughout` | esp32-embedder/worker/worker.c:332-404 | The same at every moment of a run, not just at its end |
| `WorkerPool.ResultHolds` | esp32-embedder/worker/worker.c:101-130 | A job ready to be deleted is one whose accepted result a reader finds its body in, unchanged |
| `Sqs.Client.Receive` | esp32-embedder/worker/sqs.c:113-159 | It asks once, for one to ten messages. What it gives are messages with exactly the body each was enqueued with, as many as were asked for at most; with memory enough, every complete one of the reply whose MD5 matches or is missing is among them, unless there are as many as asked for already |
| `Sqs.Client.KeepIntact` | esp32-embedder/worker/sqs.c:129-153 | Of one reply: the messages kept are the intact ones, in order, until there are enough |
| `Sqs.KeptOneMore` | esp32-embedder/worker/sqs.c:129-153 | One message more in a reply: it is kept, with its id, receipt, body and count of deliveries, if it is complete and its MD5 matches or is missing, while there is room; otherwise nothing changes |
| `Sqs.MatchingKept` | esp32-embedder/worker/sqs.c:129-153 | Every message of a reply that is complete and matches is kept, unless there are as many as were asked for |
| `Sqs.KeptFull` | esp32-embedder/worker/sqs.c:150-152 | Once there are as many as asked for, nothing later in the reply joins |
| `Sqs.Client.BatchOutcome` | esp32-embedder/worker/sqs.c:161-185 | Entry i counts as done if and only if the reply's Successful list names it, and for a message sent, with the MD5 of the very body sent |
| `Sqs.Client.SendBatch` | esp32-embedder/worker/sqs.c:187-208 | One call offers exactly the bodies, unless they are none, more than ten or over 262,144 bytes, when nothing is called; an entry counts as sent exactly if the reply lists its number with the MD5 of the very body sent, and then the results queue holds that body; if SQS takes everything and says so, everything counts |
| `Sqs.Client.DeleteBatch` | esp32-embedder/worker/sqs.c:231-234 | One call asks for exactly these receipts; an entry is done exactly if the reply lists it, and none after a call that failed; the run stays careful if every receipt is for a message an accepted result holds |
| `Sqs.Client.VisibilityBatch` | esp32-embedder/worker/sqs.c:236-239 | One call asks for exactly these receipts and seconds; an entry is done exactly if the reply lists it, and none after a call that failed; no message leaves a queue for it |
| `Worker.Worker.constructor` | esp32-embedder/worker/worker.c:50-60 | The worker starts valid and empty, with room for at least one job |
| `Worker.Worker.Arrive` | esp32-embedder/worker/worker.c:264-328 | Exactly one fate for each message: dropped if and only if it is no envelope (with memory enough), otherwise the job `Taken` describes, pending with its own ids or already answered with the first reason that applies; memory running out sends it back, never to Cal |
| `WorkerJobs.TakenMeans` | esp32-embedder/worker/worker.c:264-328 | What a message becomes, field by field: the first reason that applies of claim-check, retries (three deliveries), too-long (over 40,960 bytes), kata-unhealthy and decrypt-failed, in a result that carries the body, the board, the firmware, the message's id and its deliveries; or a pending job with its own ids, alone on its second delivery |
| `WorkerJobs.VectorMeans` | esp32-embedder/worker/worker.c:101-130 | What an embedded job's result says: its uuid, body, vector, tokens, truncation, board, firmware, pass, message id and deliveries; body and ids are let go |
| `WorkerJobs.ReturnedMeans` | esp32-embedder/worker/worker.c:132-142 | What the result of a job given up to Cal says: kata-unhealthy, its uuid and body, no vector and no pass |
| `Worker.Worker.Finish` | esp32-embedder/worker/worker.c:101-130 | The job becomes the finished one whose result names its message and carries its body, or memory ran out and nothing changes; the pool's token count follows |
| `Worker.Worker.Unembedded` | esp32-embedder/worker/worker.c:132-142 | The job's result says why it was not embedded, or memory ran out and it stays pending |
| `Worker.Worker.GoSick` | esp32-embedder/worker/worker.c:508-516 | Sick, the next health check half an hour off, and every pending job to Cal as far as memory goes; no other job is touched |
| `Worker.Worker.Remove` | esp32-embedder/worker/worker.c:78-84 | Exactly one job leaves, and its tokens are no longer counted if it was pending |
| `Worker.Worker.DropTooBig` | esp32-embedder/worker/worker.c:337-342 | Exactly the results SQS could never take are dropped |
| `Worker.Worker.Gather` | esp32-embedder/worker/worker.c:347-355 | The next batch: in order, every result not tried yet that there is still room for among ten and 256 KiB; none only if none is left to try |
| `WorkerHandoff.BatchMeans` | esp32-embedder/worker/worker.c:347-355 | A result joins the batch if it has not been tried, fewer than ten are in it and all together are 262,144 bytes at most; one that does not fit is passed over |
| `Worker.Worker.Mark` | esp32-embedder/worker/worker.c:358-362 | Exactly the jobs whose own entry was accepted move on to deletion, and every other job stays as it is; each job offered counts as tried; none sent if and only if nothing changed |
| `Worker.Worker.SendResults` | esp32-embedder/worker/worker.c:343-371 | The hand-off loop ends, every result tried at most once, nothing but results of the pool offered, and something offered if memory holds and there is a result; if every call worked and every entry was taken, no result is left; nothing but accepted results changes |
| `Worker.Worker.DeleteAll` | esp32-embedder/worker/worker.c:376-400 | The delete loop ends, each job tried at most once, and none passed over if memory holds; each is done with once its deletion has been asked for, has one more failed call, or is as it was; only jobs whose results are held are ever offered |
| `Worker.Worker.DropDeleted` | esp32-embedder/worker/worker.c:402-403 | Exactly the jobs done with, or given up after three failed calls, leave |
| `Worker.Worker.Handoff` | esp32-embedder/worker/worker.c:332-404 | Results are offered before anything is deleted. Pending jobs are untouched and no result is new; every result SQS could take is still in the pool or accepted by the results queue. A job leaves only with a result over the limit, with its deletion asked for, or after two calls that had failed before; none stays with three. The progress clock moves if and only if something was sent; in good health only pending jobs are left |
| `WorkerAsks.LeftOut` | esp32-embedder/worker/worker.c:332-404 | Why a job is missing after a hand-off, whatever the replies: its result was over 262,144 bytes, its deletion has been asked for, or calls to delete it had failed twice before |
| `Worker.Worker.Extended` | esp32-embedder/worker/worker.c:426-438 | After a call that worked each job the reply lists is hidden until then, and each it does not list is marked to leave if it is pending and not all are being released; a call that failed changes nothing, and nothing else about any job changes |
| `Worker.Worker.DropStale` | esp32-embedder/worker/worker.c:452-453 | Exactly the pending jobs whose handle was refused leave |
| `Worker.Worker.Visibility` | esp32-embedder/worker/worker.c:408-455 | One call after another asks for the receipts due, of results too, and for no others, with the seconds given; if all the calls work, every one of them has been asked about, and every job still pending is hidden until at least 600 s past the time of the scan. Pending jobs are never added, none leaves that was not asked about, and the results held are those held before |
| `WorkerAsks.WantedMeans` | esp32-embedder/worker/worker.c:417-424 | Which receipts are due: to release, those of all pending jobs; otherwise those of every job held, result or not, that could be seen again within 600 s |
| `Worker.Worker.PoolBytes` | esp32-embedder/worker/worker.c:86-91 | The bytes the pool holds, bodies, results and ids |
| `WorkerAsks.BytesMore` | esp32-embedder/worker/worker.c:86-91 | Each job counts with its body, its result and four bytes for each of its tokens |
| `WorkerAsks.RoomIs` | esp32-embedder/worker/worker.c:458-468 | How many messages a receive asks for: ten, the places left, or the budget left in units of 40,960 bytes, whichever is least |
| `Worker.Worker.TakeIn` | esp32-embedder/worker/worker.c:476-483 | With memory enough every envelope joins the pool, as the job `Taken` describes, behind all the others |
| `Worker.Worker.ReceiveInto` | esp32-embedder/worker/worker.c:470-485 | One call, with a long poll of 20 s only for an empty pool, and 900 s of visibility; the pool never exceeds its room; jobs already there stay as they are; with memory enough every envelope received is among the jobs |
| `Worker.Worker.TakeEach` | esp32-embedder/worker/worker.c:476-483 | Every message of a reply in order, none twice; with memory enough every envelope joins the pool |
| `Worker.Worker.TopUp` | esp32-embedder/worker/worker.c:458-487 | It asks at least once if and only if the pool is short of its target and has room, for as many as there is room for, and three times at most; in good health it stops sooner only if the target is reached, no room is left or the queue is empty. Jobs already there stay as they are, and whatever joins is new, pending or answered |
| `WorkerPass.VectorOk` | esp32-embedder/worker/worker.c:498-506 | A vector passes if and only if every float is finite and its norm is between 10 and 30 |
| `WorkerBoard.SegmentOfConcat` | esp32-embedder/worker/worker.c:553-557 | What the model finds at each offset of a packed pass is exactly the ids of the job packed there |
| `Worker.Worker.GatherPending` | esp32-embedder/worker/worker.c:518-523 | The oldest pending jobs, up to the 64 a pass has room for, none passed over |
| `Worker.Worker.Choose` | esp32-embedder/worker/worker.c:526-535 | The oldest alone if it is on its second delivery, otherwise the planner's picks with second deliveries counted as too long to join |
| `WorkerPass.ChosenOk` | esp32-embedder/worker/worker.c:518-535 | Whatever is chosen starts with the oldest pending job, fits 512 tokens, holds no third delivery, and a second delivery only alone |
| `WorkerPass.PicksMean` | esp32-embedder/worker/worker.c:526-535 | Exactly which jobs go: the oldest; and if it may have company, each other one that is not on its second delivery and, when its turn comes, finds those taken short of the target and, with it, within 512 tokens |
| `Worker.Worker.Pack` | esp32-embedder/worker/worker.c:552-557 | The ids of the chosen jobs end to end, and their lengths |
| `Worker.Worker.Carry` | esp32-embedder/worker/worker.c:546-560 | The pass is good if and only if it comes back clean and the model's vector for every job it carries is acceptable; then each job gets the model's vector for exactly its own ids; the pass is reported with its own size |
| `Worker.Worker.FinishAll` | esp32-embedder/worker/worker.c:568-584 | After a clean pass each job carried has a result with its own vector, unless memory ran out on it; no other job changes |
| `Worker.Worker.GiveBack` | esp32-embedder/worker/worker.c:590-595 | After a bad pass each job carried goes to Cal, none with a vector |
| `Worker.Worker.Settle` | esp32-embedder/worker/worker.c:568-598 | The count of bad passes is 0 after a clean pass and one more otherwise; sick exactly when it has reached three, the next health check then half an hour off; every carried job has its own vector or went to Cal, and nothing else changes unless the worker went sick |
| `Worker.Worker.Pass` | esp32-embedder/worker/worker.c:518-589 | A pass needs every pending job hidden for 600 s past the scan; it carries the planner's picks of the oldest and keeps to the rules. If it comes back clean and all vectors are acceptable, every job carried has the model's vector for its own ids, memory permitting; if not, all of them go to Cal and one more bad pass counts. The results undelivered as it starts are noted; if memory held, the oldest pending job is pending no more |
| `Worker.Worker.Backoff` | esp32-embedder/worker/worker.c:489-493 | Thirty seconds first, then doubling, never more than five minutes, never shrinking |
| `Worker.Worker.CheckHealth` | esp32-embedder/worker/worker.c:596-609 | A check is made if and only if the worker is sick, no park is asked for and the clock has reached its time; passed, the worker is well and has no bad passes; failed, it stays sick and the next check is 1800 s past the clock; where none is made all three are as they were |
| `Worker.Worker.Park` | esp32-embedder/worker/worker.c:617-637 | Every pending job is given back with a visibility of 0, as far as the calls get, and is held no more; parked exactly if no result is held, with the stall clock stopped and no wait; otherwise the results stay, hidden for 900 s, and the wait is five seconds |
| `Worker.Worker.Deliver` | esp32-embedder/worker/worker.c:617-617 | A step's first hand-off: a result is offered if there is one that fits and memory holds; in good health only pending jobs are left, and as much room as before |
| `Worker.Worker.Extend` | esp32-embedder/worker/worker.c:641-647 | With results undelivered, whatever is due is asked to be hidden for 900 s more; the undelivered ones stay |
| `Worker.Worker.Refresh` | esp32-embedder/worker/worker.c:645-655 | New jobs are asked for exactly if the pool is short of its target and has room, and then what of them was answered at once is offered. What that hand-off leaves undelivered, unless the worker is sick: results of jobs that have just come, and of no other, and every other result of theirs that SQS could take the results queue has; none if every job that came is pending, for then nothing is handed off. The stall clock runs whenever there is work and stops when there is none; a sick worker with memory enough keeps nothing pending |
| `Worker.Worker.Work` | esp32-embedder/worker/worker.c:645-675 | Once nothing is left to hand off: no pass unless the extension went through, and then every message carried is hidden until at least 600 s after this began; none while sick; a pass starts with exactly the results undelivered that the second hand-off left, so with none if every job that came was pending; a good pass ends a run of bad ones and a bad one makes it longer; in good health one pass gets further with the pending jobs, or there are none. The wait is the backoff after a failure, none while results are held, else 5 s if something came and 40 s if not |
| `Worker.Worker.Step` | esp32-embedder/worker/worker.c:592-675 | All a step asks of SQS, in order: results offered, jobs deleted, new messages asked for, the answered ones of them offered and deleted, pending jobs released, what is held hidden for 900 s; when parking no new messages, otherwise nothing released, and once parked nothing at all. A sick worker whose health check is due and passes is well, and no pass of this step alone can make it sick again; one whose check fails, or is not due, stays sick, and makes no pass. Every step keeps the worker's invariant whatever the network, SQS and memory do. A pass starts with results undelivered if and only if the hand-off just before it left some, all of jobs that came in this step, and with every message it carries hidden for 600 s from the step's start. In good health it parks when asked, with every pending job released, and otherwise asks for messages if there is room, and gets further or has no job pending |
| `Worker.Worker.SetSick` | esp32-embedder/worker/worker.c:677-683 | Sick at once with three bad passes, the first health check 1800 s from now, every pending job to Cal as far as memory goes |
| `Worker.Worker.RequestPark` | esp32-embedder/worker/worker.c:685-685 | Asks for parking and changes nothing else |
| `Worker.Worker.Resume` | esp32-embedder/worker/worker.c:688-693 | Undoes parking and the request for it, and changes nothing else |
| `Worker.Worker.Run` | esp32-embedder/worker/worker.c:592-693 | Over any number of steps, health checks, parks and resumes: a pending job with k ahead of it leaves the pending set within the next k + 1 passes that memory holds for, whatever arrives later |
| `WorkerUndelivered.LeftByReply` | esp32-embedder/worker/worker.c:358-364 | One reply leaves undelivered what was undelivered before, but for exactly the jobs offered whose results it took |
| `WorkerUndelivered.UndeliveredAtPass` | esp32-embedder/worker/worker.c:645-675 | A pool and a reply by which a pass starts with a result undelivered: of two jobs that come one is answered at once, the reply lists nothing, and the other goes |
| `WorkerWaiting.AheadFewer` | esp32-embedder/worker/worker.c:518-533 | A job that leaves from ahead of another shortens its wait; jobs that arrive later never lengthen it |
| `BatchPlan.BatchPlan` | esp32-embedder/worker/batch.c:4-12 | The loop writes exactly the planned picks and nothing past them |
| `BatchPlan.PlanIsGreedy` | esp32-embedder/worker/batch.c:4-12 | A message goes if and only if it is the oldest, or when its turn comes it fits under the cap beside those taken while they are short of the target; one that does not fit is passed over, not a place to stop |
| `BatchPlan.PlanFits` | esp32-embedder/worker/batch.c:4-12 | A pass keeps to the cap, if the oldest does by itself |
| `BatchPlan.OverCapStays` | esp32-embedder/worker/batch.c:4-12 | A message over the cap goes only as the oldest |
| `Results.EncodeResult` | esp32-embedder/worker/result.c:12-52 | The member-by-member writer appends exactly the text of the result, or reports that memory ran out |
| `Results.PackVector` | esp32-embedder/worker/result.c:25-30 | The vector's bytes, little-endian, four a float |
| `Results.MembersAsWritten` | esp32-embedder/worker/result.c:14-17 | A reader that splits the object at its commas finds the thirteen members as written, the envelope byte for byte, whatever one JSON value the forwarder put in it |
| `Results.MembersMean` | esp32-embedder/worker/result.c:12-52 | Read by position and key: version, kind, uuid, envelope byte for byte, embedder, board and firmware, each where it belongs |
| `Results.OutcomeMeans` | esp32-embedder/worker/result.c:12-52 | Tokens and truncation of an embedded result, the reason of another |
| `Results.OriginMeans` | esp32-embedder/worker/result.c:12-52 | The pass it was part of, and the message it came as |
| `Results.DecimalIs` | esp32-embedder/worker/result.c:12-52 | Numbers are written in decimal digits |
| `Results.VectorAsComputed` | esp32-embedder/worker/result.c:20-35 | From the text of an embedded result a reader gets the vector back bit for bit |
| `OutboxProtocol.NothingLost` | hook/hook/drain.py:317-368 | Over every interleaving of hooks and any number of drains, with commits that fail or lose their reply and drains that die anywhere: every text the hook read is pending with its text or in Postgres, no vector describes other text, and nothing Postgres knew is forgotten |
| `OutboxLatest.LatestText` | hook/hook/drain.py:300-314 | With one drain at a time, as the lock has it, whatever fails, dies or loses its reply: the text last queued for a message either waits in the table or is the one Postgres holds |
| `OutboxLatest.StepCurrent` | hook/hook/drain.py:257-280 | Every statement of hook or drain keeps that, if no drain starts beside another |
| `OutboxLatest.OverlapRegresses` | hook/hook/drain.py:233-254 | What the lock is for: with two drains at a time there is a run after which nothing waits to be sent and Postgres holds an older text than the last queued |
| `OutboxProtocol.RunKeeps` | hook/hook/drain.py:257-280 | The invariant of the protocol holds after every run; rows never leave their places |
| `OutboxProtocol.StepKeeps` | hook/hook/drain.py:257-280 | Every statement of hook or drain keeps it, and only improves what Postgres holds |
| `OutboxProtocol.TombstoneNeedsCommit` | hook/hook/drain.py:114-136 | A row becomes a tombstone only in a step that marks what a drain wrote, and only because a committed batch held it with exactly the text and titles it has at that moment |
| `OutboxProtocol.FailuresGoBehind` | hook/hook/drain.py:80-103 | A pending row left out of a batch is nearer its turn once that batch has failed, so rows that always fail cannot starve it |
| `OutboxProtocol.HookKeeps` | hook/hook/record.py:593-680 | A run of the hook keeps the ids unique and every row in its place. Rows of other sessions stay as they are; of a row of its own session it changes nothing but titles, each as it was or the run's, and, if it queues the row again, the text, which is then the transcript's, and the count of failures. What it adds are records of the run, waiting |
| `OutboxProtocol.StepQueues` | hook/hook/record.py:593-630 | Every text the hook has read has a row, for ever |
| `OutboxTable.QueueIsPending` | hook/hook/drain.py:91-103 | The queue is exactly the pending rows as they stand, fewest failures first, then by id |
| `OutboxTable.BatchTakesTheFirst` | hook/hook/drain.py:80-103 | A batch is a limited number of pending rows as they stand, and leaves out only rows that come after all it holds |
| `OutboxMeaning.QueueMeans` | hook/hook/drain.py:91-103 | The order of the queue: fewer failures first, then the smaller id |
| `OutboxMeaning.SentMeans` | hook/hook/drain.py:114-136 | Through any batch: a row is blanked and marked sent if and only if it waits and its text and both titles are those some row of the batch was written with; no other row changes |
| `OutboxMeaning.FailedMeans` | hook/hook/drain.py:139-144 | Through any batch: each of its rows has one more failure, and nothing else changes |
| `OutboxMeaning.GroupedOneMore` | hook/hook/drain.py:106-111 | One more row joins the group of its session, at its end, or makes a group of its own behind the others |
| `OutboxDrain.Outbox.Append` | hook/hook/record.py:593-630 | The transaction turns the table into exactly what inserting, then carrying titles makes of it (`OutboxMeaning` says what that is, row by row), and says that it changed something exactly when a row was added or there were titles to write and a row to write them on |
| `OutboxMeaning.InsertOneMore` | hook/hook/record.py:605-625 | A record is added, waiting and with no failures, unless a row of its id is there, which stays as it is |
| `OutboxMeaning.TitlesMean` | hook/hook/record.py:633-680 | With no title, or no row of the session, nothing but the insertion; with some row of the session waiting, each of those takes the new titles that are neither missing nor empty, in place of its own, and no other row changes |
| `OutboxMeaning.RequeueMeans` | hook/hook/record.py:648-680 | With every row of the session sent, the newest alone is queued again, with the text the transcript has for it, the new titles in place of the old and no failures, and only if a title is new to it and the transcript has its text |
| `OutboxDrain.Outbox.Carry` | hook/hook/record.py:633-680 | A new title goes onto every pending row of the session, or, with none pending, onto the newest row, which is queued again with its text refilled from the transcript; it says so exactly when there was such a row |
| `OutboxDrain.Outbox.MarkSent` | hook/hook/drain.py:114-136 | Exactly the rows still as they were written become tombstones, and the count says how many |
| `OutboxDrain.Outbox.MarkFailed` | hook/hook/drain.py:139-144 | Each row of the batch has one more failed attempt, and nothing else changes |
| `OutboxDrain.GroupBySession` | hook/hook/drain.py:106-111 | One group a session, in order of first appearance, each in the order of the batch |
| `OutboxDrain.GroupsLoseNothing` | hook/hook/drain.py:106-111 | The groups together are the rows of the batch, each as often as the batch holds it |
| `OutboxDrain.GroupsBySession` | hook/hook/drain.py:106-111 | One session a group, and no session in two |
| `OutboxDrain.Server.WriteSession` | hook/hook/drain.py:172-230 | Postgres becomes exactly the store that upserting the conversation and its rows with text makes of it; `Postgres.MessageMeans`, `ConversationMeans` and `OthersUntouched` say column by column what that is |
| `Postgres.MessageMeans` | hook/hook/drain.py:154-230 | After the write, for each row with text and an id of its own: a new message has the row's session, number, role, author, tool name, model and content; a stored one keeps session and number, has the row's role and content, the row's author unless that is unknown, and the row's tool name and model where it has them, else its own. Its vector is kept while the text is the same, and otherwise the provider's for the new text, if it answers |
| `Postgres.ConversationMeans` | hook/hook/drain.py:172-203 | After the write, the conversation has the last name and the last title of the batch that are neither missing nor empty, else its own; its own host, else the first row's; no other conversation changes |
| `Postgres.OthersUntouched` | hook/hook/drain.py:204-230 | A message no row with text is for is as it was |
| `OutboxDrain.FindName` | hook/hook/drain.py:177-180 | The last title of the batch that is neither missing nor empty, if there is one |
| `OutboxDrain.System.Hook` | hook/hook/record.py:593-630 | A run of the hook is one step of the protocol |
| `OutboxDrain.System.Start` | hook/hook/drain.py:80-103 | A drain takes the batch as the table stands; without a connection the whole batch is to be marked failed |
| `OutboxDrain.System.Write` | hook/hook/drain.py:262-274 | A session's write commits, rolls back, or commits without the drain learning of it |
| `OutboxDrain.System.Sent` | hook/hook/drain.py:114-136 | What was written is marked, and what it made tombstones is counted |
| `OutboxDrain.System.Failed` | hook/hook/drain.py:139-144 | What was refused has one more failed attempt |
| `OutboxDrain.System.Deliver` | hook/hook/drain.py:260-280 | One session: written and marked sent, or refused and marked failed, whatever others do between the two statements |
| `OutboxDrain.System.DrainPass` | hook/hook/drain.py:257-280 | Every row of the batch is counted once as written, failed or changed; with nothing else at work none is changed, and what is counted as written is what no longer waits; in good health nothing fails |
| `OutboxDrain.System.DrainLocked` | hook/hook/drain.py:317-368 | Every statement of the drain is a step of the protocol; undisturbed it ends, and then nothing waits or the last pass failed on all it took; undisturbed and in good health, nothing waits |
| `Postgres.UpsertAllKeeps` | hook/hook/drain.py:154-169 | Through any one write a stored vector is always that of the stored text, author never returns to unknown, tool name and model are never blanked, and every row with text is there afterwards with text the batch held |
| `Postgres.EachAlone` | hook/hook/drain.py:213-230 | Each row of a batch fares as it would alone, though what is stored is looked up once before the first (what it comes to, column by column, is `Postgres.MessageMeans`) |
| `Postgres.Redelivery` | hook/hook/drain.py:204-230 | Delivering a batch again with nothing delivered in between leaves every message as it was but for a vector; nothing at all changes if and only if every message still without one finds the provider down again |
| `Postgres.RedeliveryAddsVector` | hook/hook/drain.py:204-230 | A message delivered while the embedding provider is down and again when it is up: the second delivery adds its vector |
| `Transcript.Capturable` | hook/hook/record.py:382-403 | The messages of a transcript and their numbers, mid-turn ones with the number before them |
| `Transcript.CapturedOneMore` | hook/hook/record.py:340-403 | One entry more: a message of either side is captured under the count of those before it; what a person typed while Claude was at work, with an id and not empty, as a user's message under the last number given; anything else not at all |
| `Transcript.NumbersStay` | hook/hook/record.py:382-403 | Messages captured earlier keep their places and numbers however the transcript grows |
| `Transcript.Numbered` | hook/hook/record.py:382-403 | Ordinary messages are numbered 0, 1, 2 without gaps; one sent mid-turn has the number of the last before it, or 0 |
| `Transcript.NumbersRise` | hook/hook/record.py:382-403 | Numbers never fall, and a later ordinary message has a greater one |
| `Transcript.ClassifyAuthor` | hook/hook/record.py:240-293 | Martin if and only if the text is more than reminders, or a picture came with no tool result; Claude if and only if the role says so |
| `Transcript.ToolUseNames` | hook/hook/record.py:296-313 | The loop gives each call id the tool the transcript's last naming of it gives, and ids never named none |
| `Transcript.LastNamingWins` | hook/hook/record.py:296-313 | Of all the namings in order, the last of an id is the one that counts; an id has a name if and only if some call named it |
| `Transcript.NameInLastCall` | hook/hook/record.py:296-313 | Read off the transcript itself: an id has the name in the last call, of all Claude's messages, that has that id and a name |
| `Transcript.NoNameWithoutCall` | hook/hook/record.py:296-313 | An id no call has has no name |
| `Transcript.BuildRecords` | hook/hook/record.py:406-466 | The messages captured and their rows; a row for every message that says something and for no other, so that no row without text is ever queued. `Transcript.RowMeans` and `RowsTool` say what is in a row |
| `Transcript.RowMeans` | hook/hook/record.py:406-466 | A row's columns: the entry's id, or the session and the number; session, name, title and host of the reading; role, text and number of the message; the author by origin, role and structure; a model only where Claude speaks |
| `Transcript.RowsTool` | hook/hook/record.py:316-323 | A tool's row has the tool name of the first result in it, if that call is named; no other row has one |
| `Transcript.RowsOneMore` | hook/hook/record.py:434-466 | The rows are those of the messages with text, in order |
| `Transcript.GrowingTranscript` | hook/hook/record.py:406-466 | Read again later, a transcript gives the earlier rows again, but for the name of a tool not named till then |
| `Transcript.IdsDiffer` | hook/hook/record.py:365-369 | No two messages of a transcript get one id, since ids are made up only for ordinary messages |
| `FactsSplit.SplitExchanges` | facts_eval/export.py:40-74 | The loop finds exactly the exchanges of the grammar: Martin's messages, then Claude's answers, repeats left out, closed when Martin speaks again |
| `FactsSplit.KeptOneMore` | facts_eval/export.py:40-51 | A message is left out if a machine wrote it or if it repeats the last one kept, and no other is |
| `FactsSplit.ExchangeSays` | facts_eval/export.py:40-74 | An exchange message by message: Martin as the user, anyone else as the assistant, each content the first so many characters of its row's; the first row's time and number, the last row's number |
| `FactsSplit.BlockThenMartin` | facts_eval/export.py:52-71 | Martin's messages and Claude's answers are one exchange whatever Martin says next |
| `FactsSplit.CutKept` | facts_eval/export.py:40-74 | Cutting after anything Claude said cuts the list of exchanges in two, closed flags included |
| `FactsSplit.ResumeFindsTheRest` | facts/service.py:297-307 | With strictly increasing numbers, reading past the last number of an exchange finds exactly the exchanges after it, closed flags included |
| `FactsShared.ResumesExactlyWhenApart` | facts/service.py:297-307 | With numbers that may be shared, as mid-turn messages share them, a run that resumes after an exchange finds exactly those behind it if and only if the next does not begin on the number that one ended on |
| `FactsShared.MidTurnQuestionLost` | facts/service.py:297-307 | A question sent mid-turn shares its predecessor's number: once the exchange before it is done with, its own exchange is never found |
| `FactsService.SettledOnce` | facts/service.py:335-373 | No exchange is settled twice, be it by two commits, two refusals or one of each |
| `FactsService.HandledIffPassed` | facts/service.py:352-360 | The exchanges done with are exactly those that begin at or before the progress mark: it never passes one unhandled nor claims one it has not reached |
| `FactsService.NextSettles` | facts/service.py:352-360 | Settling the next exchange moves the mark to its last row, and what is read from there is exactly the exchanges behind it |
| `FactsService.CommitSound` | facts/service.py:335-349 | Committing facts and progress together keeps all of it; the facts are those there were followed by exactly one for each text the extractor gave, in order, with that text and the exchange's first and last numbers |
| `FactsService.ProgressMeans` | facts/service.py:352-373 | The progress row after each statement: a commit or a refusal takes the mark to the exchange's last number if that is further, clears the failures, and a refusal is counted; a recorded failure names the exchange and its count, moves no mark and touches no fact |
| `FactsService.CountMeans` | facts/service.py:363-365 | One more failure of the same exchange, or the first of another |
| `FactsService.FactsOnlyGrow` | facts/service.py:335-373 | Whatever moves a conversation on, its facts stay, in their order, before any new ones |
| `FactsService.GiveUpSound` | facts/service.py:352-360 | Giving up after the maximum of failures keeps all of it; nothing is given up sooner |
| `FactsService.RecordFailureSound` | facts/service.py:363-373 | The count is never more than the failures there were, and recording one moves no mark |
| `FactsService.NewRowsSound` | facts/service.py:297-307 | Messages arriving at any time, numbered above all that are stored, keep all of it; for others see FactsLate |
| `FactsLate.NeverReadIffNotAbove` | facts/service.py:297-307 | A stored message is never read, by a run that starts from the present mark or a later one, if and only if its number is not above the mark |
| `FactsLate.BelowIsUnseen` | facts/service.py:297-307 | If only messages at or below the mark were stored, every later run finds the same exchanges as without them |
| `FactsLate.AnyOrderAboveSound` | facts/service.py:297-307 | Stored in any order, messages numbered above the mark keep everything the service relies on, as if they had come in order |
| `FactsLate.EarlyExchangeLost` | facts/service.py:297-307 | An exchange stored after a later one that is done with is whole, but no run ever finds it |
| `FactsRun.Database.Commit` | facts/service.py:335-349 | Committed, rolled back, or unknown to the caller; never half of it, and no other conversation is touched. Done means stored: the facts before, then one for each text, with that text and the exchange's numbers; nothing is committed that the extractor did not say; in good health it is done |
| `FactsRun.Database.Advance` | facts/service.py:352-360 | Given up, or unknown to the caller; in good health given up |
| `FactsRun.Database.RecordFailure` | facts/service.py:363-373 | One more failure of this exchange, or the first of a new one; the mark stays; in good health it is recorded |
| `FactsRun.CountFailure` | facts/service.py:426-436 | An exchange is given up only once it has failed the maximum number of times, and is left for another run only short of it; in good health it is one or the other |
| `FactsRun.Attempt` | facts/service.py:403-447 | Every attempt counts once against the limit; an outage is no failure of the exchange; enough outages in a row stop the run. An attempt counted as an exchange has stored a fact for each text the extractor gave; in good health facts are committed, and a failure is recorded and the exchange given up at the maximum |
| `FactsRun.ExtractConversation` | facts/service.py:394-447 | The extractor is asked about the conversation's next exchanges, one after the other, and about none still open unless the conversation is idle. Nothing is taken back in any conversation, wherever the run dies; whatever was committed has exactly the facts the extractor gave for it; in good health nothing it could take is left in what it read |
| `FactsRun.ExtractPending` | facts/service.py:388-447 | A run keeps everything, stays within its limits, and commits only what the extractor said, of the exchange it said it of; in good health it visits every conversation it found and leaves nothing to take in any, unless it reaches its limit |
| `FactsRun.Service` | facts/service.py:388-447 | Over any number of runs, each dying anywhere, with messages arriving throughout, the invariant holds, progress never moves back, and every exchange committed has the facts the extractor gave for it |
| `FactsEmbed.EmbedPending` | facts/service.py:457-492 | The loop ends; unless the provider failed too often in a row, every fact that is not deleted has its vector or has failed once; none fails twice, none is written over, and a vector is always of the fact's own text |
| `FactsEmbed.EmbedOne` | facts/service.py:477-492 | A fact has its vector or has failed once more; an outage counts towards stopping, a refused fact does not |
| `FactsEmbed.EmbedBatch` | facts/service.py:476-492 | Of a batch gone through, every fact has its vector or has failed |
| `FactsEmbed.NothingWants` | facts/service.py:468-474 | An empty selection means that nothing is left to embed |
| `FactsEmbed.SelectsFirst` | facts/service.py:468-474 | A fact that wants a vector is passed over only if the batch is full of earlier ones |
| `TokEncode.Encode` | esp32-embedder/tok/tok.c:276-319 | 101, the first maxIds - 2 tokens of the simple unbounded specification, 102, and the true total; -1 if and only if there is no room or memory, -2 if and only if the specification has no tokens for the text. `TokMeaning` says what those tokens are, apart from the specification |
| `TokMeaning.OneWord` | esp32-embedder/tok/tok.c:220-248 | The tokens of a text that is one word: their vocabulary strings joined are the mark and the word in lower case, each the longest that fits where it begins; or no such chain gets through, and they are exactly [100]. At least one in any case |
| `TokMeaning.CutTokens` | esp32-embedder/tok/tok.c:250-274 | A space cuts a text in two, and a character that stands alone in three: the tokens are those of the parts |
| `TokMeaning.SplitAlone` | esp32-embedder/tok/tok.c:250-274 | A character that stands alone is a word of its own, mark and all |
| `TokMeaning.DroppedTokens` | esp32-embedder/tok/tok.c:250-274 | A character that is dropped makes no difference |
| `TokMeaning.ThrownTokens` | esp32-embedder/tok/tok.c:250-274 | There are no tokens at all exactly if some character kept has a lower case past U+10FFFF |
| `TokMeaning.SpecialTokens` | esp32-embedder/tok/tok.c:287-308 | The literal text of a special token is that token, between the tokens of what stands before and after it |
| `TokEncode.Encoder.Fragment` | esp32-embedder/tok/tok.c:250-274 | Streaming the words of a fragment writes exactly the tokens of its words; the word buffer is never overrun. Which these are is `TokMeaning.OneWord`, `CutTokens` and `DroppedTokens` |
| `TokEncode.Encoder.FlushWord` | esp32-embedder/tok/tok.c:220-248 | Longest match first from the left, or the one token of an unknown word (`TokMeaning.OneWord`); a rollback under the cap leaves the tokens before as they were |
| `TokEncode.Encoder.Match` | esp32-embedder/tok/tok.c:227-236 | The search from the longest vocabulary string down finds the longest prefix in the vocabulary and its id |
| `TokEncode.Encoder.Push` | esp32-embedder/tok/tok.c:211-215 | One more token, written if there is room, counted in any case |
| `TokEncode.ReadOne` | esp32-embedder/tok/tok.c:250-274 | One more code point read keeps what is still to be read, whatever its class |
| `TokSpecials.Confluence` | esp32-embedder/tok/tok.c:287-308 | The one scan for the five special tokens partitions any text exactly as splitting by each in turn does, in any order of the five |
| `TokSpecials.SplitRefines` | esp32-embedder/tok/tok.c:287-308 | Splitting by one more special is scanning for one more |
| `TokSpecials.NoOverlap` | esp32-embedder/tok/tok.c:287-308 | Two specials never overlap, and one place matches at most one |
| `TokSpecials.SpecialNames` | esp32-embedder/tok/tok.c:8-9 | The five, letter by letter |
| `TokVocab.Vocab.Init` | esp32-embedder/tok/tok.c:32-86 | 0 and a vocabulary of the section's first n strings in GGUF form, every one of them to be found, or -1 if and only if the count is out of range, memory short or the section holds fewer; the string buffer is never overrun |
| `TokVocab.SectionHolds` | esp32-embedder/tok/tok.c:40-62 | A section holds exactly these strings if and only if it begins with them, each ended by a NUL |
| `TokVocab.GgufForms` | esp32-embedder/tok/tok.c:64-70 | A string's GGUF form: without its ##, as it is in brackets, else behind the mark U+2581 |
| `TokVocab.Vocab.Lookup` | esp32-embedder/tok/tok.c:20-30 | It ends for every string without a NUL, and gives the greatest index whose string is equal, or -1 if none is |
| `TokVocab.Vocab.Probe` | esp32-embedder/tok/tok.c:20-30 | The search stops at the string's slot or at the first empty one, and always stops |
| `TokVocab.Enter` | esp32-embedder/tok/tok.c:78-81 | Entering a word where its search stops keeps the table, an empty slot included, and the last of equal words wins |
| `TokUnicode.CptClass` | esp32-embedder/tok/tok.c:101-114 | The bisection meets the run of a code point (`TokUnicode.ClassMeans`) |
| `TokUnicode.CptNfd` | esp32-embedder/tok/tok.c:116-127 | The bisection meets the range of a code point (`TokUnicode.NfdMeans`) |
| `TokUnicode.CptLower` | esp32-embedder/tok/tok.c:129-145 | The bisection meets the entry of a code point (`TokUnicode.LowerMeans`) |
| `TokUnicode.ClassMeans` | esp32-embedder/tok/tok.c:101-114 | A code point has the class of the run it is in, up to where the next begins; past U+10FFFF it is kept |
| `TokUnicode.NfdMeans` | esp32-embedder/tok/tok.c:116-127 | A code point in a range is replaced by what the range says, and is itself where it is in none |
| `TokUnicode.LowerMeans` | esp32-embedder/tok/tok.c:129-145 | A code point in the table has the lower case it is paired with there, and is itself where it is not |
| `TokUnicode.Utf8RoundTrip` | esp32-embedder/tok/tok.c:147-199 | Every code point up to U+10FFFF written is read back, whatever follows it |
| `TokUnicode.Utf8TextRoundTrip` | esp32-embedder/tok/tok.c:147-199 | Every text written is read back |
| `TokUnicode.Utf8Lengths` | esp32-embedder/tok/tok.c:177-199 | One byte below U+0080, two below U+0800, three below U+10000, else four |
| `TokUnicode.BadSequence` | esp32-embedder/tok/tok.c:147-175 | A byte that cannot begin a character, or begins one that is cut short or broken, is read as U+FFFD, one byte on |
| `PassForward.PassForward` | esp32-embedder/firmware/full/main/full.c:309-354 | Whatever bytes each read brings, the pass returns 0 if and only if what came of every section it streamed has the CRC that section should have; then every unit has been computed, once and in order, and otherwise some first ones, not all; either way no read is left under way when it ends |
| `PassForward.Compute` | esp32-embedder/firmware/full/main/full.c:333-351 | While a unit computes, with both tasks going on underneath in any order, its stage holds what was brought of its own rows of section mi * 5, and the scales, biases and outlier buffers what was brought of sections mi * 5 + 1, + 2 and + 4, the norms of 30 to 33; no read under way is into one of them; it starts only while no section has failed its CRC |
| `PassForward.UnitInPlace` | esp32-embedder/firmware/full/main/full.c:309-354 | When the reads of a unit are done, each of its buffers holds in full what the read meant for it brought (by section number, `PassForward.UnitProvided`) |
| `PassForward.UnitProvided` | esp32-embedder/firmware/full/main/full.c:279-298 | Which section each buffer is filled from, by its number, offset and length: the unit's rows r0 to r1 of the weights, the matrix's scales, biases and outlier weights, the layer's four norm vectors |
| `PassForward.Issue` | esp32-embedder/firmware/full/main/full.c:279-298 | The reads of a unit go out in order, into slots not in use; the slots returned, six at most, are enough to wait for. What they fill, by section number, is `PassForward.UnitProvided` |
| `PassForward.WaitAll` | esp32-embedder/firmware/full/main/full.c:326-326 | Waiting for the requests returned is waiting for all the unit's reads |
| `PassTruthful.GoodIsFile` | esp32-embedder/firmware/full/main/full.c:309-354 | If the card gives what is on it, what PassForward says of a pass that returns 0 holds if and only if each of sections 0 to 33 of every layer of the file itself, but for those that number outlier channels, has the CRC it should |
| `PassTruthful.PassReadable` | esp32-embedder/firmware/full/main/full.c:279-298 | Every read of a pass is inside the file, on a sector boundary and not empty |
| `PassTruthful.InPlaceIsFile` | esp32-embedder/firmware/full/main/full.c:115-134 | If the card gives what is on it, what a unit finds in a buffer is the file's bytes of the read meant for it (by section number, `PassTruthful.UnitSees`) |
| `PassTruthful.UnitSees` | esp32-embedder/firmware/full/main/full.c:277-298 | If the card gives what is on it, then while a unit computes: the stage begins with the file's rows r0 to r1 of section mi * 5 of its layer, the scales with section mi * 5 + 1, the biases with mi * 5 + 2, the outlier weights with mi * 5 + 4, and the four norms with sections 30 to 33 |
| `PassTruthful.CoveredIsFile` | esp32-embedder/firmware/full/main/full.c:189-204 | If the card gives what is on it, what has come of a section so far, over all its reads, is the file's section from its start |
| `PassTasks.Reader.constructor` | esp32-embedder/firmware/full/main/full.c:226-238 | The reader starts with every slot and both bounce buffers free |
| `PassTasks.Reader.Rd` | esp32-embedder/firmware/full/main/full.c:207-217 | One more request, in a slot of the ring no read under way has |
| `PassTasks.Reader.WaitRd` | esp32-embedder/firmware/full/main/full.c:219-224 | It returns only once its read is done, and it does return, whichever task goes when |
| `PassTasks.Reader.Tick` | esp32-embedder/firmware/full/main/full.c:163-204 | Any one statement of either task keeps the invariant and leaves less to do |
| `PassTasks.Reader.SomeoneCan` | esp32-embedder/firmware/full/main/full.c:163-204 | While a read is under way some task can go on: the queues, bounce buffers and semaphores never deadlock |
| `PassTasks.Reader.SdFill` | esp32-embedder/firmware/full/main/full.c:178-180 | The chunk the sd task is at, as this read of the card gave it, is in the bounce buffer it holds, and the other bounce buffer is as it was |
| `PassTasks.Reader.SdSend` | esp32-embedder/firmware/full/main/full.c:181-184 | The next chunk in order goes behind the others with its buffer, its place and its flags, and the task turns to the other buffer |
| `PassTasks.Reader.CpSum` | esp32-embedder/firmware/full/main/full.c:193-196 | The sum of the chunk's read is the CRC of all that has come of its section up to the end of this chunk, also across blocks, and no other sum changes |
| `PassTasks.Reader.CpCopy` | esp32-embedder/firmware/full/main/full.c:197-197 | The chunk is where it belongs in the buffer of its read, and no other byte of any buffer changes |
| `PassTasks.Reader.CpFinish` | esp32-embedder/firmware/full/main/full.c:199-203 | The last chunk of a read gives its request's semaphore, and counts one bad section more if and only if the section is to be verified and what came of it has not the CRC it should; any other chunk does neither |
| `PassTasks.Checked` | esp32-embedder/firmware/full/main/full.c:189-204 | What is compared when a section is complete is the CRC of exactly what came of that section, all of it |
| `PassReads.NoHazard` | esp32-embedder/firmware/full/main/full.c:279-298 | The reads of the next unit fill no buffer this one computes with |
| `PassReads.LoadedThrough` | esp32-embedder/firmware/full/main/full.c:279-298 | The last read into each buffer a unit computes with is the one meant for it, with the next unit's reads issued or not (which section that is of, by number, is `PassForward.UnitProvided`) |
| `PassReads.IssuedChained` | esp32-embedder/firmware/full/main/full.c:279-298 | A read starts its section's CRC or goes on where the last read left off, and is verified when the section is complete |
| `PassReads.AllVerified` | esp32-embedder/firmware/full/main/full.c:279-298 | Every section of every layer that the pass streams is verified |
| `PassPlan.Plan` | esp32-embedder/firmware/full/main/full.c:266-277 | Layer by layer, matrix by matrix, block by block; never more units than there is room for |
| `PassPlan.RowsTiled` | esp32-embedder/firmware/full/main/full.c:266-277 | Every row of every matrix is in exactly one unit |
| `PassPlan.UnitInNumbers` | esp32-embedder/firmware/full/main/full.c:264-277 | Unit u of a pass in numbers: layer u / 24, its matrix, its block, and its rows, 512 of them or 128 |
| `PassPlan.MatrixShapes` | esp32-embedder/firmware/full/main/full.c:258-258 | The six matrices of a layer: 1024 by 1024, but for 4096 rows in the fifth and 4096 columns in the sixth |
| `PassReads.SectionsInBytes` | esp32-embedder/firmware/full/main/full.c:279-298 | How long each section of a matrix is, in bytes |
| `PassPlan.UnitsFollow` | esp32-embedder/firmware/full/main/full.c:266-277 | Each unit begins where the one before ended, or begins the next matrix |
| `PassChunks.ChunksMore` | esp32-embedder/firmware/full/main/full.c:163-187 | One more read adds exactly its own chunks, after all the others |
| `CardFile.SdRead` | esp32-embedder/firmware/full/main/full.c:115-134 | Exactly the file's bytes and their CRC on top of the one given; or the board stops, which it does if asked for what is not on a sector, and otherwise only if the card fails five times at one place |
| `CardFile.ChunkOnCard` | esp32-embedder/firmware/full/main/full.c:123-129 | Within one chunk the file's bytes lie together on the card |
| `CardFile.Walk` | esp32-embedder/firmware/full/main/full.c:123-123 | The walk finds the fragment an offset is in |
| `CardFile.SdSectors` | esp32-embedder/firmware/full/main/full.c:102-113 | Read as soon as a try works, given up only after five; how many there were is said |
| `AgeStream.AcceptsExactlyEncryptions` | esp32-embedder/worker/age.c:246-284 | With an ideal AEAD a file is accepted as some plaintext if and only if it is the salt followed by the 64 KiB chunking of that plaintext with only the last chunk flagged |
| `AgeIntegrity.IdealCanBe` | esp32-embedder/worker/age.c:246-284 | There is such an AEAD: the hypothesis of AcceptsExactlyEncryptions and ExactlyTheFile can be met |
| `AgeStream.Payload` | esp32-embedder/worker/age.c:246-284 | The loop over the chunks accepts exactly encryptions and leaves exactly the plaintext, and a NUL behind it, in the buffer; with an error no byte of plaintext is left there |
| `AgeStream.ReadsExactly` | esp32-embedder/worker/age.c:262-273 | The same from any chunk on; past the first an empty chunk is refused |
| `AgeIntegrity.OnlyTheFile` | esp32-embedder/worker/age.c:246-284 | Whatever body stands behind whatever salt: if none of its chunks is forged, that is, of those read only chunks sealed for the file open, it is accepted only if it is the file itself |
| `AgeIntegrity.ExactlyTheFile` | esp32-embedder/worker/age.c:246-284 | With an ideal AEAD, accepted if and only if it is the file, and then as the plaintext that was sealed |
| `AgeIntegrity.NothingForged` | esp32-embedder/worker/age.c:246-284 | An AEAD that opens nothing but what was sealed leaves no body with a forged chunk |
| `AgeIntegrity.TruncationFails` | esp32-embedder/worker/age.c:246-284 | Cut off anywhere, in a chunk or between two, a file is refused |
| `AgeIntegrity.ExtensionFails` | esp32-embedder/worker/age.c:246-284 | Continued with anything, a file is refused |
| `AgeIntegrity.RearrangementFails` | esp32-embedder/worker/age.c:246-284 | Made of its own chunks in any order, with any of them left out or repeated, it is refused unless it comes out the same |
| `AgeIntegrity.DroppedChunkFails` | esp32-embedder/worker/age.c:246-284 | Without any one of its chunks a file is refused |
| `AgeIntegrity.RepeatedChunkFails` | esp32-embedder/worker/age.c:246-284 | With a chunk in twice, anywhere, a file is refused |
| `AgeIntegrity.ExchangedChunksFail` | esp32-embedder/worker/age.c:246-284 | With two different chunks of one length exchanged a file is refused |
| `AgeIntegrity.NoncesDiffer` | esp32-embedder/worker/age.c:265-267 | No two chunks of a file have one nonce, up to as many as the eight bytes of the counter can number |
| `AgeIntegrity.NonceIs` | esp32-embedder/worker/age.c:265-267 | The twelve bytes: three zeros, the chunk's number in eight, greatest first, and 1 for the last chunk, 0 for any other |
| `AgeIntegrity.FileIs` | esp32-embedder/worker/age.c:246-284 | What an encryption is: the salt, then chunk k sealed of bytes 65,536 k on, 65,536 of them but for the last, under nonce k with the flag only on the last; one chunk for no bytes at all |
| `AgeIntegrity.UnforgeableCanBe` | esp32-embedder/worker/age.c:246-284 | For every file there is an AEAD that opens nothing else and reads the file: what the theorems assume can be so |
| `Base64.DecodesExactlyEncodings` | esp32-embedder/worker/kw.c:161-228 | Decoding gives some bytes if and only if the text is their encoding, with padding or, in the raw mode, without |
| `Base64.EncodeInto` | esp32-embedder/worker/kw.c:166-181 | The loop writes exactly the encoding and its NUL, and nothing past it |
| `Base64.Alphabet` | esp32-embedder/worker/kw.c:161-165 | The sixty-four digits: A to Z, a to z, 0 to 9, + and / |
| `Base64.EncodeMeans` | esp32-embedder/worker/kw.c:166-181 | Four digits hold three bytes, greatest first; two bytes make three digits and one =, one byte two and two |
| `Base64.DecodeInto` | esp32-embedder/worker/kw.c:201-228 | The loop succeeds on exactly the encodings, and then the bytes written are those encoded, nothing past them touched |
| `Base64.RawExactly` | esp32-embedder/worker/kw.c:201-228 | Without padding, decoding is exactly the inverse of encoding |
| `JsonText.Buffer.JsonString` | esp32-embedder/worker/kw.c:124-146 | The copying of runs between escapes appends exactly the escaped string |
| `JsonText.JsonStrReadsBack` | esp32-embedder/worker/kw.c:124-146 | Any bytes written as a JSON string read back as themselves, and the reader goes on right after it |
| `JsonText.EscapedIs` | esp32-embedder/worker/kw.c:124-146 | Which characters are escaped, and as what |
| `JsonText.PrepJsonNuls` | esp32-embedder/worker/prep.c:6-32 | The loop rewrites exactly the escaped NULs in strings, counts them, and each makes the text three shorter |
| `JsonText.PrepKeepsMeaning` | esp32-embedder/worker/prep.c:6-32 | For every text a JSON reader can read, the rewritten text reads as the same with every NUL in its strings a backslash and a zero |
| `JsonText.SanitisedOne` | esp32-embedder/worker/prep.c:6-32 | A NUL becomes a backslash and a zero, anything else stays |
| `JsonText.PrintedRewrittenRead` | esp32-embedder/worker/prep.c:6-32 | Printed, rewritten and read, any bytes come out as themselves with every NUL a backslash and a zero |
| `PrepTruncate.Truncate` | esp32-embedder/worker/prep.c:34-47 | The loop cuts where the specification does |
| `PrepTruncate.TruncatesToCharacters` | esp32-embedder/worker/prep.c:34-47 | A UTF-8 text keeps its first max characters whole, and is said to be truncated exactly when it had more |
| `Dates.DatesBack` | esp32-embedder/worker/kw.c:230-253 | Every real Gregorian date comes back from its day number |
| `Dates.NumbersBack` | esp32-embedder/worker/kw.c:230-253 | Every day number is that of the real date made of it |
| `Dates.NextNumber` | esp32-embedder/worker/kw.c:232-240 | The day after a real date has the next number |
| `Dates.ParseIso` | esp32-embedder/worker/kw.c:265-275 | The loops over digits and fraction come to the value IsoAccepts describes |
| `Dates.IsoAccepts` | esp32-embedder/worker/kw.c:265-275 | Which texts are read, and as what: six numbers in range, each with its digits and separators, with a fraction or none, in UTC, as the second they make; every other text as -1 |
| `Dates.DayRunsOver` | esp32-embedder/worker/kw.c:232-240 | A day its month has not, such as 30 February, has the number of the day as many past the month's end |
| `Dates.SecondRunsOver` | esp32-embedder/worker/kw.c:265-275 | A second 60 is the first second of the next minute |
| `Dates.IsoReads` | esp32-embedder/worker/kw.c:265-275 | A real date and time, years 0000 to 9999, with or without a fraction, is read as its second |
| `Dates.IsoRoundTrip` | esp32-embedder/worker/kw.c:265-297 | Read and printed again it has the same digits |
| `Dates.MinusOne` | esp32-embedder/worker/kw.c:265-275 | Of everything the parser takes, days no month has and second 60 included, the answer for what cannot be read is that of one second, the last of 1969, and of nothing else |

## Left out

- Transport: TLS, HTTP, request signing, credentials, the network's own begin and end; a call here is made or fails.
- SQS's truthfulness is assumed where the worker relies on it: an MD5 in a reply is of what the queue took or holds, no two texts share an MD5, a body without an MD5 arrives whole. The worker is the only one that deletes from the ingest queue.
- Receipts are numbered in the order SQS gives them out; a job is built as a value and then pooled, where the C fills a slot of the array in place; pool slots are a sequence, so aliasing and freeing are not modelled.
- `visibleUntil` is the worker's own belief about its clock; nothing is claimed about when SQS shows a message again.
- Counters, status, logging, heartbeat, the day's rollover and `worker_free`.
- Envelope and job parsing (cJSON, unique keys, field types, depth) is one function parameter that accepts only whole JSON values; decryption and opening of the job are another. Their own running out of memory is a free choice in `Arrive`.
- The model's floats: the pass is a function from ids to vectors, and a vector's norm is computed over real numbers, not rounded doubles. Kernels, quantisation and attention are not modelled.
- Integer widths: 32-bit file offsets, token counts and lengths are unbounded here, except where the width matters (the hash, code points, floats' bits, bytes).
- mbedTLS is an ideal AEAD, parsing of age headers, Bech32 and key agreement are not modelled, nor mbedTLS failing for reasons of its own. What `AgeIntegrity` says of changed files assumes that whoever changed them forged no chunk, which is what the cipher is trusted for, and files of at most 2^64 chunks.
- `raw_open` and its limit on fragments: the cluster map is given, sector-aligned and in order. In `PassForward` a read may bring any bytes at all; in `CardFile` and `PassTruthful` a read that works brings what is on the card. A read that fails past its tries stops the board, as in the C.
- The computation inside a unit, attention between units, timings and the progress indicator of a pass.
- Unicode and vocabulary tables are parameters: sorted, the five special tokens in the vocabulary, strings free of NUL, no table yielding U+0000.
- `tok_free`, and vocabularies over 65,534 strings, which the C refuses too.
- JSON rewriting is stated for texts a JSON reader can read; others are only copied as the loop copies them.
- SQL: the order and filters of `pending_conversations`, the `since` and `priority` options, dry runs, prompts, earlier messages and recent facts; a fact here is its text. Facts come in the order they were made, ties in `created_at` aside.
- The advisory lock of the facts service, and how the drain's file lock is taken: `OutboxLatest` has what it achieves as a hypothesis, one drain at a time; all else holds of any number of drains at once.
- A connection to Postgres that fails is a drain whose whole batch is refused.
- Exchanges are values; the Python changes one object as rows are read.
- Whether Postgres ends with the latest title: a title reverted after an older row carried the one in between is a case the code does not cover, so nothing is claimed.
- How a transcript's text, images and reminder tags are read (`_extract_text`, `_image_markers`, regular expressions) is a parameter of `Transcript`; time stamps, titles' own sources, image staging, the fallback file and the start of a drain are left out.
- `backfill.py`, `scripts/reembed.py`, the other repair scripts and `replay_fallback.py`: run by hand, beside the hook and the drain, and taking no part in what those keep.
- Search and recall (`mcp`) read what the pipeline has stored and write nothing the pipeline reads. How good facts and answers are is measured (`facts_eval/judge.py`, `facts_eval/run.py`), not decided by the code.
- The firmware around the worker (Wi-Fi, MQTT, updates over the air and their signatures, the status page), the benchmarks, the host tools and the stacks it is deployed with (`esp32-embedder/infra`, `localhost`, `server` with its earlier queue worker) start, feed and watch these programs; the model takes their effects as free choices: online or not, healthy or not, park or resume.
- FactsRun.Database.PendingConversations: which conversations are found, and in what order, is left open; any list without repetition.
- FactsService.HandledIffPassed: for strictly increasing numbers only, for the reason FactsShared.MidTurnQuestionLost gives.
- FactsService.NewRowsSound: for messages numbered above all that are stored, as are those of FactsRun.Service; FactsLate says what becomes of others between runs.
