# check-queue.py, modelled in Dafny

`check-queue.py` receives one batch of Auto Scaling lifecycle events from an SQS queue. For
each event about an instance leaving its Auto Scaling group, it runs the
shell command `QUEUES='<queues>' /opt/cribl/scripts/check_files.sh` on that
instance through SSM Run Command. It waits for the command to finish and, if
the command succeeded, completes the lifecycle action with `CONTINUE`. Every
message it processes is then deleted from the queue. A message that raises
ends the run, and it and every later message stay in the queue (see below).

The model has three modules:

- `Backends` (`backends.dfy`) describes the world the script talks to:
  - Each AWS call is answered from a script of responses. The k-th
    `send_command`, `get_command_invocation` and
    `complete_lifecycle_action` call of a run gets the k-th response of its
    kind.
  - A call past the end of its script gets the error answer of its kind.
  - A `send_command` answer is a `ClientError`, another botocore error, a
    response without `Command`, or a `CommandId`. The loop retries only
    after a `ClientError` or a response without `Command`; any other
    error leaves `run_command` at once.
  - `InvocationDoesNotExist` stands for every exception of
    `get_command_invocation`. Any of them leaves `run_command` at once, with
    the same effects.
  - `LifecycleClientError` likewise stands for every exception of
    `complete_lifecycle_action`.
  - What the script does is recorded in a trace of `Effect`s: receive,
    sleep, dispatch, poll, lifecycle completion, delete and exit.
  - `Attempts` is the retry-loop shape both SSM loops share: attempt k
    sleeps 5k seconds, then calls.
- `CommandRunner` (`command_runner.dfy`) models `run_command`:
  - `Dispatch` and `Poll` are the two `while` loops and `RunCommand` composes
    them.
  - All three are proved against the specification function
    `RunCommandSpec`, and lemmas state the promises about it.
- `QueueHandler` (`queue_handler.dfy`) models `main`, `send_lifecycle_action`
  and the command string:
  - `CheckQueue` is the message loop of `main`, proved against the
    specification function `Run`.
  - `TryCheck` is its `try` block, proved against `CheckInstance`.

The environment (`QUEUE_URL`, `QUEUES`), the reply of `receive_message` and
the response scripts are parameters. A run's result is its trace of effects.
Three kinds of failure look the same to `main`: `run_command` raising,
`send_lifecycle_action` raising, and a missing `QUEUES` raising `KeyError`.
In each case the message is logged and then deleted.

Where the code and its description differ, the model mostly follows the
code:

- `run_command` returns nothing on success. The command's output is only
  logged.
- Three cases raise outside any `try` (`QueueHandler.Raises`):
  - `json.loads` fails on the body;
  - the body has no `Origin`;
  - `Origin` is `AutoScalingGroup` and there is no `Destination`.
- Such a message ends the process with status 1. The rest of the batch is
  neither processed nor deleted.
- The event test short-circuits. An event from another origin is ignored
  and deleted, even when it has no `Destination`.

The one exception is the unhandled-status branch of `run_command`. The model
follows its written `continue`, not the crash that branch hits when it runs
(see "## Findings" and "## Left out").

## Model

| member | source | states |
|---|---|---|
| Backends.Attempts | ec2-managed-linux/source/check-queue.py:62-65 | the trace of n attempts of a retry loop has one sleep and one call per attempt; `AttemptsAt` and `AttemptsOnly` state its contents |
| Backends.AttemptsAt | ec2-managed-linux/source/check-queue.py:61-65 | attempt k+1 of a retry loop sleeps 5(k+1) seconds, then issues its call |
| Backends.AttemptsOnly | ec2-managed-linux/source/check-queue.py:95-103 | a retry loop does nothing but sleep and issue its one call |
| CommandRunner.EndsDispatch | ec2-managed-linux/source/check-queue.py:78-88 | only a `Command` (the `break`) or an error other than a `ClientError` (not caught) ends dispatch before its budget; its meaning is stated by `DispatchStopsAtFirstCommand`, `DispatchErrorFails` and `DispatchExhaustedFails` |
| CommandRunner.DispatchAttempts | ec2-managed-linux/source/check-queue.py:61-88 | the dispatch loop makes 1 to 10 `send_command` calls; it stops early only on a response carrying `Command` or an uncaught error, at the first one |
| CommandRunner.Terminal | ec2-managed-linux/source/check-queue.py:104-121 | which poll answers end polling: InvocationDoesNotExist, Success and Failed; an unhandled status too when read as executed. `PollStopsAtTerminal`, `PollExhaustedFails` and `UnhandledStatusKeepsPolling` state its consequences |
| CommandRunner.PollAttempts | ec2-managed-linux/source/check-queue.py:93-121 | the poll loop makes at most 20 calls and stops early only on a terminal response, at the first one |
| CommandRunner.RunCommandSpec | ec2-managed-linux/source/check-queue.py:57-127 | `run_command` dispatches 1 to 10 times and polls at most 20 times; every attempt contributes one sleep and one call |
| CommandRunner.Dispatch | ec2-managed-linux/source/check-queue.py:61-91 | the dispatch loop's attempt count, command id and trace are those of the specification |
| CommandRunner.Poll | ec2-managed-linux/source/check-queue.py:93-127 | the poll loop's attempt count, trace and success are those of the specification; it succeeds only when the last response read is Success |
| CommandRunner.RunCommand | ec2-managed-linux/source/check-queue.py:57-127 | the whole of `run_command` equals `RunCommandSpec` under the written `continue` |
| CommandRunner.RunCommandEffects | ec2-managed-linux/source/check-queue.py:65-103 | every effect is a sleep, a dispatch of the given command to the event's instance, or a poll about that instance |
| CommandRunner.DispatchSchedule | ec2-managed-linux/source/check-queue.py:61-75 | the k-th dispatch is preceded by a 5k-second sleep, and all dispatches come first |
| CommandRunner.PollSchedule | ec2-managed-linux/source/check-queue.py:93-103 | polling happens only once a command id was obtained; the k-th poll, after a 5k-second sleep, asks about that id on the event's instance |
| CommandRunner.DispatchStopsAtFirstCommand | ec2-managed-linux/source/check-queue.py:78-79 | the first response carrying `Command` ends dispatch, and polling follows |
| CommandRunner.DispatchExhaustedFails | ec2-managed-linux/source/check-queue.py:81-91 | ten dispatches that each get a `ClientError` or no `Command` make `run_command` fail after exactly ten calls, with no poll |
| CommandRunner.DispatchErrorFails | ec2-managed-linux/source/check-queue.py:64-88 | a `send_command` error that is not a `ClientError` escapes the handler: `run_command` fails at that attempt, with no retry and no poll |
| CommandRunner.PollStopsAtTerminal | ec2-managed-linux/source/check-queue.py:104-124 | Success, Failed or InvocationDoesNotExist ends polling at once, and `run_command` returns exactly when it was Success |
| CommandRunner.PollExhaustedFails | ec2-managed-linux/source/check-queue.py:123-127 | twenty polls without a terminal status make `run_command` fail |
| CommandRunner.UnhandledStatusKeepsPolling | ec2-managed-linux/source/check-queue.py:114-117 | under the written `continue`, a status such as Pending spends an attempt and polling goes on |
| CommandRunner.UnhandledStatusFailsAsWritten | ec2-managed-linux/source/check-queue.py:114-117 | as executed, the first unhandled status makes `run_command` fail at that poll |
| CommandRunner.PendingThenSuccess | ec2-managed-linux/source/check-queue.py:104-117 | with Pending then Success, the as-executed code fails but the written `continue` returns |
| QueueHandler.Raises | ec2-managed-linux/source/check-queue.py:139-143 | a message raises when its body does not decode, has no `Origin`, or has origin `AutoScalingGroup` and no `Destination`; `MalformedMessageAbortsBatch` states the consequence |
| QueueHandler.Routed | ec2-managed-linux/source/check-queue.py:143 | an event is acted on exactly when its origin is `AutoScalingGroup` and its destination `EC2`; `MessageStep` and `RoutedMessageDispatches` state what follows |
| QueueHandler.CheckCommand | ec2-managed-linux/source/check-queue.py:146 | the command carries the `QUEUES` value verbatim between the fixed prefix and the script path; `QueuesOf` reads it back |
| QueueHandler.SendLifecycleAction | ec2-managed-linux/source/check-queue.py:39-55 | one `complete_lifecycle_action` call with the event's hook, group, token and instance and the given result; it fails exactly on an error answer |
| QueueHandler.CheckInstance | ec2-managed-linux/source/check-queue.py:145-151 | the `try` block: a missing `QUEUES` fails with no effect, otherwise `run_command` and, if it returned, CONTINUE; `CheckInstanceEffects` and `ContinueOnlyAfterReturn` state its promises |
| QueueHandler.TryCheck | ec2-managed-linux/source/check-queue.py:145-151 | the `try` block equals `CheckInstance`, so it sends CONTINUE if and only if `QUEUES` is set and `run_command` returned (`ContinueOnlyAfterReturn`), and never deletes, receives or exits (`CheckInstanceEffects`) |
| QueueHandler.Next | ec2-managed-linux/source/check-queue.py:138-158 | one pass of the message loop; `MessageStep`, `OtherOriginIgnored`, `RoutedMessageDispatches` and `AddedLoopEffects` state what it does |
| QueueHandler.Batch | ec2-managed-linux/source/check-queue.py:138-158 | the message loop over a batch, in receive order; `BatchDeletesAll`, `BatchLoopEffects` and `AbortAbsorbs` state what it does |
| QueueHandler.Run | ec2-managed-linux/source/check-queue.py:129-168 | a whole run of `main`; `EveryMessageDeletedOnce`, `MalformedMessageAbortsBatch` and `OnlyContinueSent` state its promises, and `CheckQueue` its guard and receive |
| QueueHandler.CheckQueue | ec2-managed-linux/source/check-queue.py:129-168 | with no `QUEUE_URL`: exit 255 before any receive; otherwise one receive first; no `Messages` means nothing else; the whole trace equals `Run` |
| QueueHandler.AbortAbsorbs | ec2-managed-linux/source/check-queue.py:138-143 | once a message raises, later messages are not processed |
| QueueHandler.CheckInstanceEffects | ec2-managed-linux/source/check-queue.py:145-148 | the `try` block never deletes, receives or exits; it dispatches only the check command to the event's instance; its only lifecycle call is last and says CONTINUE with the event's fields |
| QueueHandler.ContinueOnlyAfterReturn | ec2-managed-linux/source/check-queue.py:145-151 | CONTINUE is sent if and only if `QUEUES` is set and `run_command` returned; the block succeeds if and only if, in addition, the lifecycle call did not raise |
| QueueHandler.AddedLoopEffects | ec2-managed-linux/source/check-queue.py:143-158 | a pass never exits and completes lifecycle actions only with CONTINUE |
| QueueHandler.MessageStep | ec2-managed-linux/source/check-queue.py:143-158 | each message that does not raise ends its pass with exactly one delete of its own handle, whatever failed before; an ignored event, or a routed one without `QUEUES`, gets nothing else |
| QueueHandler.OtherOriginIgnored | ec2-managed-linux/source/check-queue.py:143-158 | the event test short-circuits: an event from another origin is only deleted, with or without a `Destination` |
| QueueHandler.RoutedMessageDispatches | ec2-managed-linux/source/check-queue.py:143-147 | a routed event, with `QUEUES` set, starts with a 5-second sleep and the dispatch of the check command to its instance |
| QueueHandler.BatchDeletesAll | ec2-managed-linux/source/check-queue.py:138-158 | when no message raises, the loop deletes each message once, in receive order |
| QueueHandler.BatchLoopEffects | ec2-managed-linux/source/check-queue.py:138-158 | the loop never exits and sends only CONTINUE |
| QueueHandler.EveryMessageDeletedOnce | ec2-managed-linux/source/check-queue.py:136-158 | a run in which no message raises deletes exactly the received handles, each once, in order, and does not exit abnormally |
| QueueHandler.MalformedMessageAbortsBatch | ec2-managed-linux/source/check-queue.py:138-143 | a message that raises ends the run with exit 1 after deleting exactly the messages before it |
| QueueHandler.OnlyContinueSent | ec2-managed-linux/source/check-queue.py:148 | every lifecycle completion in a run says CONTINUE; ABANDON, which is commented out, is never sent |

## Left out

- QueueHandler.CheckQueue: like `RunCommand`, `Run` and every lemma about
  `main`, it follows the written `continue` of the unhandled-status branch.
  As executed, that branch raises UnboundLocalError and `run_command` fails
  (see "## Findings"). The as-executed behaviour is modelled only in
  `CommandRunner` (`Reading.AsWritten`).
- Logging and the exact exception messages: they do not change what happens.
- Real time: `time.sleep` is recorded as a `Sleep` effect with its duration.
- JSON decoding: a body is either a decoded `Event` or undecodable.
- Missing keys other than `Origin` and `Destination`:
  - a missing `EC2InstanceId`, hook name, group name or token inside the
    `try` block would be one more per-message failure;
  - a missing `ReceiptHandle` or `Body` would be an uncaught error.
- Transport errors of `receive_message` and `delete_message`: they are not
  caught and would end the process.
- What `check_files.sh` does on the instance, and shell quoting of `QUEUES`:
  the value is inserted verbatim.
- The document name, the `InstanceIds` list shape, and the `QueueUrl`
  argument of `delete_message` are not recorded in the effects.
- Backends: a call past the end of its response script gets the error
  answer of its kind. This stands for the script supplying an answer to
  every call.
- CommandRunner.RunCommand: the command's standard output, which is only
  logged, is not part of the result.

## Findings

| source | as written | input that shows it | evidently intended | confidence | as-written member | corrected member |
|---|---|---|---|---|---|---|
| ec2-managed-linux/source/check-queue.py:114-117 | the unhandled-status branch formats `e`, which is unbound at that point, so it raises UnboundLocalError and `run_command` fails at the first Pending, Delayed, Cancelled, TimedOut or Cancelling status | the command is dispatched; the first poll reports Pending and the second Success | log the status and keep polling, as the `continue` and the message "will continue" say | not executed | CommandRunner.UnhandledStatusFailsAsWritten | CommandRunner.UnhandledStatusKeepsPolling |
