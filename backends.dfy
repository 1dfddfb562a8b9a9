/** The world check-queue.py talks to: the three AWS clients as scripted
    response streams, and the effects the script has on them, recorded in a
    trace. */
module Backends {

  datatype Option<+T> = None | Some(value: T)

  /** The answer to one `ssm.send_command` call: a `ClientError`, another
      botocore error that is not a `ClientError` (a connection error, a read
      timeout, missing credentials), a response without a `Command` key, or a
      response carrying `Command.CommandId`. */
  datatype DispatchResponse = DispatchClientError | DispatchOtherError | NoCommand | Dispatched(commandId: string)

  /** The values of an SSM command invocation's `Status`. */
  datatype InvocationStatus =
    | Pending | InProgress | Delayed | Success | Cancelled | TimedOut | Failed | Cancelling

  /** The answer to one `ssm.get_command_invocation` call: an invocation with
      its `Status` and `StandardOutputContent`, or an exception. Every
      exception of that call, `InvocationDoesNotExist` or any other, leaves
      `run_command` at once with the same effects, so one answer stands for
      them all. */
  datatype PollResponse = Invocation(status: InvocationStatus, output: string) | InvocationDoesNotExist

  /** The answer to one `autoscaling.complete_lifecycle_action` call. A
      `ClientError` is re-raised by `send_lifecycle_action` and any other
      botocore error passes through it; `main` handles both alike, so one
      answer stands for both. */
  datatype LifecycleResponse = LifecycleOk | LifecycleClientError

  /** The three clients as scripts: the k-th call of a kind made during the
      whole run (counting from 0) receives the k-th response of that kind. A
      call past the end of its script gets the error answer of its kind. */
  datatype Backend = Backend(
    dispatch: seq<DispatchResponse>,
    poll: seq<PollResponse>,
    lifecycle: seq<LifecycleResponse>)
  {
    function DispatchAt(k: nat): DispatchResponse {
      if k < |dispatch| then dispatch[k] else DispatchClientError
    }

    function PollAt(k: nat): PollResponse {
      if k < |poll| then poll[k] else InvocationDoesNotExist
    }

    function LifecycleAt(k: nat): LifecycleResponse {
      if k < |lifecycle| then lifecycle[k] else LifecycleClientError
    }
  }

  /** One observable effect of the script, in the order it happens. */
  datatype Effect =
    | Receive(queueUrl: string)
    | Sleep(seconds: nat)
    | SendCommand(instanceId: string, command: string)
    | GetInvocation(commandId: string, instanceId: string)
    | CompleteLifecycle(hookName: string, groupName: string, actionToken: string, result: string, instanceId: string)
    | Delete(receiptHandle: string)
    | Exit(code: int)

  /** Seconds slept per attempt number: attempt k sleeps `BACKOFF * k`. */
  const BACKOFF: nat := 5

  /** The effects of attempts 1..n of a retry loop that sleeps
      `BACKOFF * attempt` seconds and then issues `call`. */
  function Attempts(n: nat, call: Effect): (t: seq<Effect>)
    ensures |t| == 2 * n
  {
    if n == 0 then [] else Attempts(n - 1, call) + [Sleep(BACKOFF * n), call]
  }

  /** Attempt k + 1 sleeps `BACKOFF * (k + 1)` seconds and then issues the call. */
  lemma {:induction false} AttemptsAt(n: nat, call: Effect, k: nat)
    requires k < n
    ensures Attempts(n, call)[2 * k] == Sleep(BACKOFF * (k + 1))
    ensures Attempts(n, call)[2 * k + 1] == call
  {
    if k < n - 1 {
      AttemptsAt(n - 1, call, k);
    }
  }

  /** A retry loop's effects are its sleeps and its calls. */
  lemma {:induction false} AttemptsOnly(n: nat, call: Effect)
    ensures forall i :: 0 <= i < |Attempts(n, call)| ==> Attempts(n, call)[i] == call || Attempts(n, call)[i].Sleep?
  {
    if n > 0 {
      AttemptsOnly(n - 1, call);
    }
  }

  /** The receipt handles of the `Delete` effects of a trace, in order. */
  function Deletes(t: seq<Effect>): (hs: seq<string>)
    ensures |hs| <= |t|
  {
    if t == [] then []
    else Deletes(t[..|t| - 1]) + (if t[|t| - 1].Delete? then [t[|t| - 1].receiptHandle] else [])
  }

  lemma {:induction false} DeletesConcat(a: seq<Effect>, b: seq<Effect>)
    ensures Deletes(a + b) == Deletes(a) + Deletes(b)
  {
    if b == [] {
      assert a + b == a;
    } else {
      assert (a + b)[..|a + b| - 1] == a + b[..|b| - 1];
      DeletesConcat(a, b[..|b| - 1]);
    }
  }

  lemma {:induction false} NoDeletes(t: seq<Effect>)
    requires forall i :: 0 <= i < |t| ==> !t[i].Delete?
    ensures Deletes(t) == []
  {
    if t != [] {
      NoDeletes(t[..|t| - 1]);
    }
  }
}
