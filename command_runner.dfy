/** `run_command` of check-queue.py: dispatch a shell command to an instance
    through SSM, then poll its invocation until it reaches a terminal state,
    each phase under a fixed attempt budget with a linear back-off. */
module CommandRunner {
  import opened Backends

  const MAX_DISPATCH: nat := 10
  const MAX_POLL: nat := 20

  /** How a call of `run_command` ends: it returns, or it raises. Every
      exception it raises is caught by the same handler in `main`, so they
      are not told apart. */
  datatype Outcome = Returned | Failure

  /** The three statuses `run_command` tests for by name. */
  predicate Handled(s: InvocationStatus) {
    s.InProgress? || s.Success? || s.Failed?
  }

  /** How a status other than InProgress, Success and Failed is handled.
      `Intended` follows the written `continue` of the unhandled-status
      branch: the status is logged and polling goes on. `AsWritten` follows
      what that branch does when it runs: formatting the unbound name `e`
      raises UnboundLocalError, so `run_command` fails at that poll. */
  datatype Reading = Intended | AsWritten

  /** Whether a poll response ends the polling loop. */
  predicate Terminal(r: PollResponse, reading: Reading) {
    r.InvocationDoesNotExist? || r.status.Success? || r.status.Failed? ||
    (reading.AsWritten? && !r.status.InProgress?)
  }

  predicate IsSuccess(r: PollResponse) {
    r.Invocation? && r.status.Success?
  }

  /** Whether a `send_command` answer ends the dispatch loop before its
      budget: a `Command` breaks out of it, and an error other than a
      `ClientError` is not caught by it. */
  predicate EndsDispatch(r: DispatchResponse) {
    r.Dispatched? || r.DispatchOtherError?
  }

  /** The number of `send_command` calls the dispatch loop makes when its
      calls start at `d0` and attempts 1..j did not end it: it stops at the
      first answer that ends it, and after MAX_DISPATCH attempts. */
  function DispatchAttempts(b: Backend, d0: nat, j: nat): (n: nat)
    requires j <= MAX_DISPATCH
    ensures 1 <= n <= MAX_DISPATCH && j <= n
    ensures forall i :: d0 + j <= i < d0 + n - 1 ==> !EndsDispatch(b.DispatchAt(i))
    ensures n < MAX_DISPATCH ==> EndsDispatch(b.DispatchAt(d0 + n - 1))
    decreases MAX_DISPATCH - j
  {
    if j == MAX_DISPATCH then MAX_DISPATCH
    else if EndsDispatch(b.DispatchAt(d0 + j)) then j + 1
    else DispatchAttempts(b, d0, j + 1)
  }

  /** The number of `get_command_invocation` calls the polling loop makes when
      its calls start at `p0` and polls 1..j were not terminal: it stops at
      the first terminal response, and after MAX_POLL attempts. */
  function PollAttempts(reading: Reading, b: Backend, p0: nat, j: nat): (n: nat)
    requires j <= MAX_POLL
    ensures 1 <= n <= MAX_POLL && j <= n
    ensures forall i :: p0 + j <= i < p0 + n - 1 ==> !Terminal(b.PollAt(i), reading)
    ensures n < MAX_POLL ==> Terminal(b.PollAt(p0 + n - 1), reading)
    decreases MAX_POLL - j
  {
    if j == MAX_POLL then MAX_POLL
    else if Terminal(b.PollAt(p0 + j), reading) then j + 1
    else PollAttempts(reading, b, p0, j + 1)
  }

  /** The outcome of one call of `run_command`, its effects, and how many
      responses of each SSM script it consumed. */
  datatype RunResult = RunResult(outcome: Outcome, effects: seq<Effect>, sends: nat, polls: nat)

  /** The effects `run_command` may have for an instance and a command: sleeps,
      dispatches of exactly that command to exactly that instance, and polls
      about that instance. */
  predicate CommandEffect(e: Effect, instanceId: string, command: string) {
    e.Sleep? || e == SendCommand(instanceId, command) || (e.GetInvocation? && e.instanceId == instanceId)
  }


  /** Dispatch attempts 1..s neither got a `Command` nor met an uncaught
      error. */
  predicate DispatchRetried(b: Backend, d0: nat, s: nat) {
    forall i :: d0 <= i < d0 + s ==> !EndsDispatch(b.DispatchAt(i))
  }

  /** Dispatch attempt s + 1 is the first of the ten to get a `Command`, and
      no uncaught error came before it. */
  predicate FirstCommand(b: Backend, d0: nat, s: nat) {
    s < MAX_DISPATCH && b.DispatchAt(d0 + s).Dispatched? && DispatchRetried(b, d0, s)
  }

  /** Poll k + 1 is the first of the twenty to get a terminal response. */
  predicate FirstTerminal(reading: Reading, b: Backend, p0: nat, k: nat) {
    k < MAX_POLL && Terminal(b.PollAt(p0 + k), reading) &&
    forall i :: p0 <= i < p0 + k ==> !Terminal(b.PollAt(i), reading)
  }

  /** The `CommandId` the dispatch loop ends with, if any. */
  function DispatchedId(b: Backend, d0: nat): Option<string> {
    var response := b.DispatchAt(d0 + DispatchAttempts(b, d0, 0) - 1);
    if response.Dispatched? then Some(response.commandId) else None
  }

  /** Whether the polling loop that starts at `p0` ends on a Success status. */
  predicate EndsOnSuccess(reading: Reading, b: Backend, p0: nat) {
    IsSuccess(b.PollAt(p0 + PollAttempts(reading, b, p0, 0) - 1))
  }

  /** What `run_command(event, command)` does when its `send_command` calls
      receive the responses from `d0` on and its `get_command_invocation`
      calls those from `p0` on. */
  function RunCommandSpec(reading: Reading, b: Backend, d0: nat, p0: nat, instanceId: string, command: string): (r: RunResult)
    ensures 1 <= r.sends <= MAX_DISPATCH && r.polls <= MAX_POLL
    ensures |r.effects| == 2 * (r.sends + r.polls)
  {
    var sends := DispatchAttempts(b, d0, 0);
    var dispatches := Attempts(sends, SendCommand(instanceId, command));
    match DispatchedId(b, d0)
    case None => RunResult(Failure, dispatches, sends, 0)
    case Some(id) =>
      var polls := PollAttempts(reading, b, p0, 0);
      var outcome := if EndsOnSuccess(reading, b, p0) then Returned else Failure;
      RunResult(outcome, dispatches + Attempts(polls, GetInvocation(id, instanceId)), sends, polls)
  }

  lemma {:induction false} FirstCommandAt(b: Backend, d0: nat, s: nat)
    requires FirstCommand(b, d0, s)
    ensures DispatchAttempts(b, d0, 0) == s + 1
    ensures DispatchedId(b, d0) == Some(b.DispatchAt(d0 + s).commandId)
  {
    var n := DispatchAttempts(b, d0, 0);
    assert n - 1 <= s;
  }

  lemma {:induction false} NoCommandWithin(b: Backend, d0: nat)
    requires DispatchRetried(b, d0, MAX_DISPATCH)
    ensures DispatchAttempts(b, d0, 0) == MAX_DISPATCH && DispatchedId(b, d0) == None
  {
    var n := DispatchAttempts(b, d0, 0);
    assert !EndsDispatch(b.DispatchAt(d0 + n - 1));
  }

  lemma {:induction false} DispatchErrorAt(b: Backend, d0: nat, s: nat)
    requires s < MAX_DISPATCH && b.DispatchAt(d0 + s).DispatchOtherError? && DispatchRetried(b, d0, s)
    ensures DispatchAttempts(b, d0, 0) == s + 1 && DispatchedId(b, d0) == None
  {
    var n := DispatchAttempts(b, d0, 0);
    assert n - 1 <= s;
    assert d0 + n - 1 == d0 + s;
  }

  lemma {:induction false} FirstTerminalAt(reading: Reading, b: Backend, p0: nat, k: nat)
    requires FirstTerminal(reading, b, p0, k)
    ensures PollAttempts(reading, b, p0, 0) == k + 1
    ensures EndsOnSuccess(reading, b, p0) == IsSuccess(b.PollAt(p0 + k))
  {
    var n := PollAttempts(reading, b, p0, 0);
    assert n - 1 <= k;
    assert p0 + n - 1 == p0 + k;
  }

  lemma {:induction false} NoTerminalWithin(reading: Reading, b: Backend, p0: nat)
    requires forall i :: p0 <= i < p0 + MAX_POLL ==> !Terminal(b.PollAt(i), reading)
    ensures PollAttempts(reading, b, p0, 0) == MAX_POLL && !EndsOnSuccess(reading, b, p0)
  {
    var n := PollAttempts(reading, b, p0, 0);
    assert !Terminal(b.PollAt(p0 + n - 1), reading);
  }

  /** The dispatch loop of `run_command`: up to MAX_DISPATCH `send_command`
      calls, receiving `b.DispatchAt(d0)`, `b.DispatchAt(d0 + 1)`, ..., each
      after a sleep of `BACKOFF * attempt` seconds. */
  method Dispatch(b: Backend, d0: nat, instanceId: string, command: string)
    returns (sends: nat, commandId: Option<string>, effects: seq<Effect>)
    ensures sends == DispatchAttempts(b, d0, 0)
    ensures commandId == DispatchedId(b, d0)
    ensures effects == Attempts(sends, SendCommand(instanceId, command))
  {
    effects := [];
    var send := SendCommand(instanceId, command);
    // `response` is unbound until a send_command call returns
    var response: Option<DispatchResponse> := None;
    var attempt: nat := 0;
    while attempt < MAX_DISPATCH
      invariant attempt <= MAX_DISPATCH
      invariant effects == Attempts(attempt, send)
      invariant DispatchRetried(b, d0, attempt)
      invariant response.Some? ==> !response.value.Dispatched?
    {
      attempt := attempt + 1;
      effects := effects + [Sleep(BACKOFF * attempt), send];
      var answer := b.DispatchAt(d0 + attempt - 1);
      if answer.DispatchClientError? {
        // logged, and the attempt is spent
        continue;
      }
      if answer.DispatchOtherError? {
        // not a ClientError: it leaves `run_command` at once
        DispatchErrorAt(b, d0, attempt - 1);
        return attempt, None, effects;
      }
      response := Some(answer);
      if answer.Dispatched? {
        break;
      }
      if attempt == MAX_DISPATCH {
        // "Command did not execute succesfully in time allowed."
        NoCommandWithin(b, d0);
        return attempt, None, effects;
      }
    }
    // `response['Command']` raises when `response` is unbound or has no `Command`
    if response.None? || !response.value.Dispatched? {
      NoCommandWithin(b, d0);
      return attempt, None, effects;
    }
    FirstCommandAt(b, d0, attempt - 1);
    return attempt, Some(response.value.commandId), effects;
  }

  /** The polling loop of `run_command`: up to MAX_POLL
      `get_command_invocation` calls, receiving `b.PollAt(p0)`,
      `b.PollAt(p0 + 1)`, ..., each after a sleep of `BACKOFF * attempt`
      seconds; `success` tells whether the last status read was Success. */
  method Poll(b: Backend, p0: nat, commandId: string, instanceId: string)
    returns (polls: nat, success: bool, effects: seq<Effect>)
    ensures polls == PollAttempts(Intended, b, p0, 0)
    ensures success == EndsOnSuccess(Intended, b, p0)
    ensures effects == Attempts(polls, GetInvocation(commandId, instanceId))
  {
    effects := [];
    var get := GetInvocation(commandId, instanceId);
    // `result` is unbound until a get_command_invocation call returns
    var result: Option<PollResponse> := None;
    var attempt: nat := 0;
    while attempt < MAX_POLL
      invariant attempt <= MAX_POLL
      invariant effects == Attempts(attempt, get)
      invariant forall i :: p0 <= i < p0 + attempt ==> !Terminal(b.PollAt(i), Intended)
      invariant attempt == 0 ==> result.None?
      invariant attempt > 0 ==> result == Some(b.PollAt(p0 + attempt - 1))
    {
      attempt := attempt + 1;
      effects := effects + [Sleep(BACKOFF * attempt), get];
      var answer := b.PollAt(p0 + attempt - 1);
      if answer.InvocationDoesNotExist? {
        FirstTerminalAt(Intended, b, p0, attempt - 1);
        return attempt, false, effects;
      }
      result := Some(answer);
      if answer.status == InProgress {
        continue;
      } else if answer.status == Success {
        break;
      } else if answer.status == Failed {
        // the message formats the unbound `e`; the call fails either way
        FirstTerminalAt(Intended, b, p0, attempt - 1);
        return attempt, false, effects;
      } else {
        // Written as "log and continue". Formatting the unbound `e` in the
        // log message raises instead; see Reading.AsWritten.
        continue;
      }
    }
    if result.Some? && IsSuccess(result.value) {
      FirstTerminalAt(Intended, b, p0, attempt - 1);
      return attempt, true, effects;
    }
    NoTerminalWithin(Intended, b, p0);
    return attempt, false, effects;
  }

  /** `run_command(event, command)`: the dispatch loop, then, if it obtained a
      `CommandId`, the polling loop; it returns normally only when polling
      ended on Success. */
  method RunCommand(b: Backend, d0: nat, p0: nat, instanceId: string, command: string) returns (r: RunResult)
    ensures r == RunCommandSpec(Intended, b, d0, p0, instanceId, command)
  {
    var sends, commandId, dispatches := Dispatch(b, d0, instanceId, command);
    if commandId.None? {
      return RunResult(Failure, dispatches, sends, 0);
    }
    var polls, success, polled := Poll(b, p0, commandId.value, instanceId);
    return RunResult(if success then Returned else Failure, dispatches + polled, sends, polls);
  }

  /** Every effect of `run_command` is a sleep, a dispatch of the given command
      to the given instance, or a poll about that instance. */
  lemma {:induction false} RunCommandEffects(reading: Reading, b: Backend, d0: nat, p0: nat, instanceId: string, command: string)
    ensures var r := RunCommandSpec(reading, b, d0, p0, instanceId, command);
      forall i :: 0 <= i < |r.effects| ==> CommandEffect(r.effects[i], instanceId, command)
  {
    var r := RunCommandSpec(reading, b, d0, p0, instanceId, command);
    AttemptsOnly(r.sends, SendCommand(instanceId, command));
    if DispatchedId(b, d0).Some? {
      AttemptsOnly(r.polls, GetInvocation(DispatchedId(b, d0).value, instanceId));
    }
  }

  /** Before its k-th `send_command` call (k = 1..10) `run_command` sleeps 5k
      seconds, and the calls come first in its trace. */
  lemma {:induction false} DispatchSchedule(reading: Reading, b: Backend, d0: nat, p0: nat, instanceId: string, command: string, k: nat)
    requires k < RunCommandSpec(reading, b, d0, p0, instanceId, command).sends
    ensures var r := RunCommandSpec(reading, b, d0, p0, instanceId, command);
      r.effects[2 * k] == Sleep(BACKOFF * (k + 1)) && r.effects[2 * k + 1] == SendCommand(instanceId, command)
  {
    var r := RunCommandSpec(reading, b, d0, p0, instanceId, command);
    AttemptsAt(r.sends, SendCommand(instanceId, command), k);
  }

  /** Before its k-th `get_command_invocation` call (k = 1..20) `run_command`
      sleeps 5k seconds; every poll asks about the dispatched command on the
      event's instance, and the polls follow all dispatches. */
  lemma {:induction false} PollSchedule(reading: Reading, b: Backend, d0: nat, p0: nat, instanceId: string, command: string, k: nat)
    requires k < RunCommandSpec(reading, b, d0, p0, instanceId, command).polls
    ensures DispatchedId(b, d0).Some?
    ensures var r := RunCommandSpec(reading, b, d0, p0, instanceId, command);
      r.effects[2 * r.sends + 2 * k] == Sleep(BACKOFF * (k + 1)) &&
      r.effects[2 * r.sends + 2 * k + 1] == GetInvocation(DispatchedId(b, d0).value, instanceId)
  {
    var r := RunCommandSpec(reading, b, d0, p0, instanceId, command);
    AttemptsAt(r.polls, GetInvocation(DispatchedId(b, d0).value, instanceId), k);
  }

  /** Dispatch stops at the first response carrying a `Command`: earlier
      responses (ClientError or no `Command`) each spent one attempt, and
      polling follows. */
  lemma {:induction false} DispatchStopsAtFirstCommand(reading: Reading, b: Backend, d0: nat, p0: nat, instanceId: string, command: string, s: nat)
    requires FirstCommand(b, d0, s)
    ensures var r := RunCommandSpec(reading, b, d0, p0, instanceId, command);
      r.sends == s + 1 && r.polls >= 1
  {
    FirstCommandAt(b, d0, s);
  }

  /** When each of the ten dispatch attempts gets a `ClientError` or a
      response without `Command`, `run_command` fails after exactly ten `send_command` calls, sleeping 5, 10, ..., 50
      seconds before them, and never polls. */
  lemma {:induction false} DispatchExhaustedFails(reading: Reading, b: Backend, d0: nat, p0: nat, instanceId: string, command: string)
    requires DispatchRetried(b, d0, MAX_DISPATCH)
    ensures RunCommandSpec(reading, b, d0, p0, instanceId, command) ==
      RunResult(Failure, Attempts(MAX_DISPATCH, SendCommand(instanceId, command)), MAX_DISPATCH, 0)
  {
    NoCommandWithin(b, d0);
  }

  /** A `send_command` error other than a `ClientError` at attempt s + 1
      makes `run_command` fail at once, after exactly s + 1 calls and with no
      poll. */
  lemma {:induction false} DispatchErrorFails(reading: Reading, b: Backend, d0: nat, p0: nat, instanceId: string, command: string, s: nat)
    requires s < MAX_DISPATCH && b.DispatchAt(d0 + s).DispatchOtherError? && DispatchRetried(b, d0, s)
    ensures RunCommandSpec(reading, b, d0, p0, instanceId, command) ==
      RunResult(Failure, Attempts(s + 1, SendCommand(instanceId, command)), s + 1, 0)
  {
    DispatchErrorAt(b, d0, s);
  }

  /** A terminal poll response (Success, Failed or InvocationDoesNotExist)
      ends polling at once: no further poll follows, and `run_command`
      returns exactly when that response is Success. */
  lemma {:induction false} PollStopsAtTerminal(reading: Reading, b: Backend, d0: nat, p0: nat, instanceId: string, command: string, s: nat, k: nat)
    requires FirstCommand(b, d0, s)
    requires FirstTerminal(reading, b, p0, k)
    ensures RunCommandSpec(reading, b, d0, p0, instanceId, command) ==
      RunResult(if IsSuccess(b.PollAt(p0 + k)) then Returned else Failure,
                Attempts(s + 1, SendCommand(instanceId, command)) +
                Attempts(k + 1, GetInvocation(b.DispatchAt(d0 + s).commandId, instanceId)),
                s + 1, k + 1)
  {
    FirstCommandAt(b, d0, s);
    FirstTerminalAt(reading, b, p0, k);
  }

  /** Twenty polls without a terminal response exhaust the budget, and
      `run_command` fails. */
  lemma {:induction false} PollExhaustedFails(reading: Reading, b: Backend, d0: nat, p0: nat, instanceId: string, command: string, s: nat)
    requires FirstCommand(b, d0, s)
    requires forall i :: p0 <= i < p0 + MAX_POLL ==> !Terminal(b.PollAt(i), reading)
    ensures RunCommandSpec(reading, b, d0, p0, instanceId, command) ==
      RunResult(Failure,
                Attempts(s + 1, SendCommand(instanceId, command)) +
                Attempts(MAX_POLL, GetInvocation(b.DispatchAt(d0 + s).commandId, instanceId)),
                s + 1, MAX_POLL)
  {
    FirstCommandAt(b, d0, s);
    var n := PollAttempts(reading, b, p0, 0);
    assert !Terminal(b.PollAt(p0 + n - 1), reading);
  }

  /** Under the written `continue`, a status other than InProgress, Success
      and Failed is not terminal: it spends an attempt and polling goes on. */
  lemma {:induction false} UnhandledStatusKeepsPolling(b: Backend, d0: nat, p0: nat, instanceId: string, command: string, s: nat, k: nat)
    requires FirstCommand(b, d0, s)
    requires k + 1 < MAX_POLL && b.PollAt(p0 + k).Invocation? && !Handled(b.PollAt(p0 + k).status)
    requires forall i :: p0 <= i < p0 + k ==> !Terminal(b.PollAt(i), Intended)
    ensures RunCommandSpec(Intended, b, d0, p0, instanceId, command).polls > k + 1
  {
    FirstCommandAt(b, d0, s);
    var n := PollAttempts(Intended, b, p0, 0);
    assert n - 1 >= k;
  }

  /** As written, the first status other than InProgress, Success and Failed
      makes `run_command` fail at that very poll. */
  lemma {:induction false} UnhandledStatusFailsAsWritten(b: Backend, d0: nat, p0: nat, instanceId: string, command: string, s: nat, k: nat)
    requires FirstCommand(b, d0, s)
    requires k < MAX_POLL && b.PollAt(p0 + k).Invocation? && !Handled(b.PollAt(p0 + k).status)
    requires forall i :: p0 <= i < p0 + k ==> b.PollAt(i).Invocation? && b.PollAt(i).status == InProgress
    ensures var r := RunCommandSpec(AsWritten, b, d0, p0, instanceId, command);
      r.outcome == Failure && r.polls == k + 1
  {
    PollStopsAtTerminal(AsWritten, b, d0, p0, instanceId, command, s, k);
  }

  /** The input that tells the two readings apart: the command is dispatched,
      the first poll reports Pending and the second Success. As written the
      run fails at the first poll; with the written `continue` it returns. */
  lemma {:induction false} PendingThenSuccess(b: Backend, instanceId: string, command: string)
    requires b.DispatchAt(0).Dispatched?
    requires b.PollAt(0) == Invocation(Pending, "") && IsSuccess(b.PollAt(1))
    ensures RunCommandSpec(AsWritten, b, 0, 0, instanceId, command).outcome == Failure
    ensures RunCommandSpec(Intended, b, 0, 0, instanceId, command).outcome == Returned
  {
    assert FirstCommand(b, 0, 0);
    PollStopsAtTerminal(AsWritten, b, 0, 0, instanceId, command, 0, 0);
    assert FirstTerminal(Intended, b, 0, 1);
    PollStopsAtTerminal(Intended, b, 0, 0, instanceId, command, 0, 1);
  }
}
