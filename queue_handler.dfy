/** `main` and `send_lifecycle_action` of check-queue.py: receive one batch
    of lifecycle events from the queue; for each event about an instance
    leaving an Auto Scaling group run the check script on it and, if that
    returned, let the termination CONTINUE; delete every message it
    processes. */
module QueueHandler {
  import opened Backends
  import opened CommandRunner

  const ORIGIN_ASG := "AutoScalingGroup"
  const DESTINATION_EC2 := "EC2"
  const CONTINUE := "CONTINUE"
  const EXIT_NO_QUEUE_URL: int := 255
  /** The status a Python process exits with on an uncaught exception. */
  const EXIT_UNCAUGHT: int := 1
  const QUEUES_PREFIX := "QUEUES='"
  const SCRIPT_SUFFIX := "' /opt/cribl/scripts/check_files.sh"

  /** A decoded message body. `destination` is None when the body has no
      `Destination` key. */
  datatype Event = Event(
    origin: string,
    destination: Option<string>,
    instanceId: string,
    hookName: string,
    groupName: string,
    actionToken: string)

  /** A received message. `body` is None when `json.loads` fails on it or the
      decoded body has no `Origin` key. */
  datatype Message = Message(body: Option<Event>, receiptHandle: string)

  /** Whether decoding the message or testing its event raises. The test
      reads `Destination` only when `Origin` is the Auto Scaling group, so a
      missing `Destination` raises only then. */
  predicate Raises(m: Message) {
    m.body.None? || (m.body.value.origin == ORIGIN_ASG && m.body.value.destination.None?)
  }

  /** The environment variables the script reads. */
  datatype Config = Config(queueUrl: Option<string>, queues: Option<string>)

  /** The events the script acts on. */
  predicate Routed(e: Event) {
    e.origin == ORIGIN_ASG && e.destination == Some(DESTINATION_EC2)
  }

  /** Reads back the `QUEUES` value of a check command, if it has that shape. */
  function QueuesOf(command: string): Option<string> {
    var n, m := |QUEUES_PREFIX|, |SCRIPT_SUFFIX|;
    if |command| >= n + m && command[..n] == QUEUES_PREFIX && command[|command| - m..] == SCRIPT_SUFFIX
    then Some(command[n..|command| - m])
    else None
  }

  /** The shell command run on the instance: the check script with `QUEUES`
      set to the configured value, inserted verbatim. */
  function CheckCommand(queues: string): (command: string)
    ensures QueuesOf(command) == Some(queues)
  {
    var command := QUEUES_PREFIX + queues + SCRIPT_SUFFIX;
    assert command[..|QUEUES_PREFIX|] == QUEUES_PREFIX;
    assert command[|command| - |SCRIPT_SUFFIX|..] == SCRIPT_SUFFIX;
    assert command[|QUEUES_PREFIX|..|command| - |SCRIPT_SUFFIX|] == queues;
    command
  }

  /** The outcome of one `send_lifecycle_action` call and its effect. */
  datatype LifecycleCall = LifecycleCall(outcome: Outcome, effect: Effect)

  /** `send_lifecycle_action(event, result)`, whose call receives
      `b.LifecycleAt(l0)`: one `complete_lifecycle_action` call carrying the
      event's hook, group, token and instance; a ClientError is re-raised as
      a failure and the call is not repeated. */
  function SendLifecycleAction(b: Backend, l0: nat, e: Event, result: string): (c: LifecycleCall)
    ensures c.effect == CompleteLifecycle(e.hookName, e.groupName, e.actionToken, result, e.instanceId)
    ensures c.outcome == Returned <==> b.LifecycleAt(l0).LifecycleOk?
  {
    var effect := CompleteLifecycle(e.hookName, e.groupName, e.actionToken, result, e.instanceId);
    match b.LifecycleAt(l0)
    case LifecycleOk => LifecycleCall(Returned, effect)
    case LifecycleClientError => LifecycleCall(Failure, effect)
  }

  /** How many responses of each script have been consumed. */
  datatype Cursors = Cursors(sent: nat, polled: nat, completed: nat)

  /** The outcome of the `try` block for one routed event, its effects, and
      the cursors after it. */
  datatype Check = Check(outcome: Outcome, effects: seq<Effect>, next: Cursors)

  /** The `try` block of `main` for a routed event: build the command (a
      missing `QUEUES` raises KeyError), run it, and on return send CONTINUE. */
  function CheckInstance(b: Backend, c: Cursors, e: Event, queues: Option<string>): Check {
    match queues
    case None => Check(Failure, [], c)
    case Some(q) =>
      var run := RunCommandSpec(Intended, b, c.sent, c.polled, e.instanceId, CheckCommand(q));
      var after := Cursors(c.sent + run.sends, c.polled + run.polls, c.completed);
      if run.outcome == Failure then Check(Failure, run.effects, after)
      else
        var call := SendLifecycleAction(b, c.completed, e, CONTINUE);
        Check(call.outcome, run.effects + [call.effect], after.(completed := c.completed + 1))
  }

  /** Whether a routed event's `run_command` returns. */
  predicate CommandReturns(b: Backend, c: Cursors, e: Event, queues: Option<string>) {
    queues.Some? &&
    RunCommandSpec(Intended, b, c.sent, c.polled, e.instanceId, CheckCommand(queues.value)).outcome == Returned
  }

  /** The state of `main` between two messages. */
  datatype BatchState = BatchState(effects: seq<Effect>, at: Cursors, aborted: bool)

  /** One pass of the message loop of `main`. */
  function Next(b: Backend, queues: Option<string>, s: BatchState, m: Message): BatchState {
    if s.aborted then s
    else if Raises(m) then s.(aborted := true)
    else if Routed(m.body.value) then
      var check := CheckInstance(b, s.at, m.body.value, queues);
      BatchState(s.effects + check.effects + [Delete(m.receiptHandle)], check.next, false)
    else
      BatchState(s.effects + [Delete(m.receiptHandle)], s.at, false)
  }

  /** The message loop of `main` over `messages`, from state `s0`. */
  function Batch(b: Backend, queues: Option<string>, s0: BatchState, messages: seq<Message>): BatchState
    decreases |messages|
  {
    if messages == [] then s0
    else Next(b, queues, Batch(b, queues, s0, messages[..|messages| - 1]), messages[|messages| - 1])
  }

  function Start(queueUrl: string): BatchState {
    BatchState([Receive(queueUrl)], Cursors(0, 0, 0), false)
  }

  /** The effects of a whole run of `main`, given the environment, the reply
      of `receive_message` (None when it has no `Messages`) and the scripts. */
  function Run(config: Config, reply: Option<seq<Message>>, b: Backend): seq<Effect> {
    match config.queueUrl
    case None => [Exit(EXIT_NO_QUEUE_URL)]
    case Some(url) =>
      match reply
      case None => [Receive(url)]
      case Some(messages) =>
        var s := Batch(b, config.queues, Start(url), messages);
        if s.aborted then s.effects + [Exit(EXIT_UNCAUGHT)] else s.effects
  }

  /** The receipt handles of `messages`, in order. */
  function Handles(messages: seq<Message>): (hs: seq<string>)
    ensures |hs| == |messages|
    ensures forall i :: 0 <= i < |messages| ==> hs[i] == messages[i].receiptHandle
  {
    if messages == [] then []
    else Handles(messages[..|messages| - 1]) + [messages[|messages| - 1].receiptHandle]
  }

  /** The `try` block of `main` for a routed event. */
  method TryCheck(b: Backend, at: Cursors, event: Event, queues: Option<string>) returns (check: Check)
    ensures check == CheckInstance(b, at, event, queues)
  {
    if queues.None? {
      // `os.environ['QUEUES']` raises KeyError
      return Check(Failure, [], at);
    }
    var run := RunCommand(b, at.sent, at.polled, event.instanceId, CheckCommand(queues.value));
    var next := Cursors(at.sent + run.sends, at.polled + run.polls, at.completed);
    if run.outcome == Failure {
      return Check(Failure, run.effects, next);
    }
    var call := SendLifecycleAction(b, at.completed, event, CONTINUE);
    check := Check(call.outcome, run.effects + [call.effect], next.(completed := at.completed + 1));
  }

  /** `main`. */
  method CheckQueue(config: Config, reply: Option<seq<Message>>, b: Backend) returns (effects: seq<Effect>)
    ensures effects == Run(config, reply, b)
    ensures config.queueUrl.None? ==> effects == [Exit(EXIT_NO_QUEUE_URL)]
    ensures config.queueUrl.Some? ==> |effects| >= 1 && effects[0] == Receive(config.queueUrl.value)
    ensures config.queueUrl.Some? && reply.None? ==> effects == [Receive(config.queueUrl.value)]
  {
    if config.queueUrl.None? {
      return [Exit(EXIT_NO_QUEUE_URL)];
    }
    var url := config.queueUrl.value;
    effects := [Receive(url)];
    if reply.None? {
      return;
    }
    var messages := reply.value;
    var at := Cursors(0, 0, 0);
    for i := 0 to |messages|
      invariant Batch(b, config.queues, Start(url), messages[..i]) == BatchState(effects, at, false)
      invariant |effects| >= 1 && effects[0] == Receive(url)
    {
      var message := messages[i];
      BatchStep(b, config.queues, Start(url), messages, i);
      if Raises(message) {
        // `json.loads`, `event['Origin']` or `event['Destination']` raises,
        // and nothing catches it
        AbortAbsorbs(b, config.queues, Start(url), messages, i + 1);
        return effects + [Exit(EXIT_UNCAUGHT)];
      }
      var event := message.body.value;
      if Routed(event) {
        var check := TryCheck(b, at, event, config.queues);
        // a failure in the try block was only logged
        effects := effects + check.effects + [Delete(message.receiptHandle)];
        at := check.next;
      } else {
        effects := effects + [Delete(message.receiptHandle)];
      }
    }
    assert messages[..|messages|] == messages;
  }

  /** Proof step: the loop over a prefix one message longer takes one more
      pass. */
  lemma BatchStep(b: Backend, queues: Option<string>, s0: BatchState, messages: seq<Message>, i: nat)
    requires i < |messages|
    ensures Batch(b, queues, s0, messages[..i + 1]) == Next(b, queues, Batch(b, queues, s0, messages[..i]), messages[i])
  {
    assert messages[..i + 1][..i] == messages[..i];
  }

  /** Once a message has aborted the loop, later messages change nothing. */
  lemma {:induction false} AbortAbsorbs(b: Backend, queues: Option<string>, s0: BatchState, messages: seq<Message>, k: nat)
    requires k <= |messages| && Batch(b, queues, s0, messages[..k]).aborted
    ensures Batch(b, queues, s0, messages) == Batch(b, queues, s0, messages[..k])
  {
    if k < |messages| {
      var init := messages[..|messages| - 1];
      assert init[..k] == messages[..k];
      AbortAbsorbs(b, queues, s0, init, k);
    } else {
      assert messages[..k] == messages;
    }
  }

  /** The try block's effects: sleeps, dispatches of the check command to the
      event's instance, polls about that instance, and at most one lifecycle
      completion, which is last, says CONTINUE and carries the event's hook,
      group, token and instance. It never deletes, receives or exits. */
  lemma {:induction false} CheckInstanceEffects(b: Backend, c: Cursors, e: Event, queues: Option<string>)
    ensures var t := CheckInstance(b, c, e, queues).effects;
      forall i :: 0 <= i < |t| ==>
        !t[i].Delete? && !t[i].Receive? && !t[i].Exit? &&
        (t[i].SendCommand? ==> queues.Some? && t[i] == SendCommand(e.instanceId, CheckCommand(queues.value))) &&
        (t[i].CompleteLifecycle? ==>
           i == |t| - 1 && t[i] == CompleteLifecycle(e.hookName, e.groupName, e.actionToken, CONTINUE, e.instanceId))
  {
    if queues.Some? {
      RunCommandEffects(Intended, b, c.sent, c.polled, e.instanceId, CheckCommand(queues.value));
    }
  }

  /** CONTINUE is sent exactly when `run_command` returned, and the try block
      succeeds exactly when, in addition, the lifecycle call did not raise. */
  lemma {:induction false} ContinueOnlyAfterReturn(b: Backend, c: Cursors, e: Event, queues: Option<string>)
    ensures var check := CheckInstance(b, c, e, queues);
      (|check.effects| > 0 && check.effects[|check.effects| - 1].CompleteLifecycle?) <==> CommandReturns(b, c, e, queues)
    ensures CheckInstance(b, c, e, queues).outcome == Returned <==>
      CommandReturns(b, c, e, queues) && b.LifecycleAt(c.completed).LifecycleOk?
  {
    if queues.Some? {
      RunCommandEffects(Intended, b, c.sent, c.polled, e.instanceId, CheckCommand(queues.value));
    }
  }

  /** The effects one pass of the message loop adds to the trace. */
  function Added(b: Backend, queues: Option<string>, s: BatchState, m: Message): seq<Effect> {
    if s.aborted || Raises(m) then []
    else
      var e := m.body.value;
      (if Routed(e) then CheckInstance(b, s.at, e, queues).effects else []) + [Delete(m.receiptHandle)]
  }

  /** Proof step: a pass of the loop only appends to the trace. */
  lemma NextAppends(b: Backend, queues: Option<string>, s: BatchState, m: Message)
    ensures Next(b, queues, s, m).effects == s.effects + Added(b, queues, s, m)
  {
    if !s.aborted && !Raises(m) && Routed(m.body.value) {
      var check := CheckInstance(b, s.at, m.body.value, queues);
      assert s.effects + check.effects + [Delete(m.receiptHandle)] == s.effects + (check.effects + [Delete(m.receiptHandle)]);
    }
  }

  /** What the message loop may do: anything but exit, and complete a
      lifecycle action only with CONTINUE. */
  predicate LoopEffect(e: Effect) {
    !e.Exit? && (e.CompleteLifecycle? ==> e.result == CONTINUE)
  }

  predicate LoopEffects(t: seq<Effect>) {
    forall i :: 0 <= i < |t| ==> LoopEffect(t[i])
  }

  lemma {:induction false} AddedLoopEffects(b: Backend, queues: Option<string>, s: BatchState, m: Message)
    ensures LoopEffects(Added(b, queues, s, m))
  {
    if !s.aborted && !Raises(m) && Routed(m.body.value) {
      CheckInstanceEffects(b, s.at, m.body.value, queues);
    }
  }

  /** One message that does not raise: its handle is deleted exactly once, as the last effect
      of its pass, whatever happened before; a message that is not routed,
      or routed while `QUEUES` is unset, gets nothing but that delete. */
  lemma {:induction false} MessageStep(b: Backend, queues: Option<string>, s: BatchState, m: Message)
    requires !s.aborted && !Raises(m)
    ensures var t := Next(b, queues, s, m);
      !t.aborted && |t.effects| > |s.effects| && t.effects[..|s.effects|] == s.effects &&
      t.effects[|t.effects| - 1] == Delete(m.receiptHandle) &&
      Deletes(t.effects) == Deletes(s.effects) + [m.receiptHandle]
    ensures !Routed(m.body.value) || queues.None? ==> Next(b, queues, s, m) == BatchState(s.effects + [Delete(m.receiptHandle)], s.at, false)
  {
    var e := m.body.value;
    NextAppends(b, queues, s, m);
    var middle := if Routed(e) then CheckInstance(b, s.at, e, queues).effects else [];
    assert Added(b, queues, s, m) == middle + [Delete(m.receiptHandle)];
    if Routed(e) {
      CheckInstanceEffects(b, s.at, e, queues);
    }
    NoDeletes(middle);
    DeletesConcat(s.effects, middle + [Delete(m.receiptHandle)]);
    DeletesConcat(middle, [Delete(m.receiptHandle)]);
    assert Deletes([Delete(m.receiptHandle)]) == [m.receiptHandle];
  }

  /** A routed event, when `QUEUES` is set, starts with a 5 second sleep and
      the dispatch of the check command to the event's instance. */
  lemma {:induction false} RoutedMessageDispatches(b: Backend, queues: Option<string>, s: BatchState, m: Message)
    requires !s.aborted && !Raises(m) && Routed(m.body.value) && queues.Some?
    ensures var t := Next(b, queues, s, m).effects;
      |t| > |s.effects| + 1 &&
      t[|s.effects|] == Sleep(BACKOFF) && t[|s.effects| + 1] == SendCommand(m.body.value.instanceId, CheckCommand(queues.value))
  {
    var e := m.body.value;
    NextAppends(b, queues, s, m);
    var run := RunCommandSpec(Intended, b, s.at.sent, s.at.polled, e.instanceId, CheckCommand(queues.value));
    DispatchSchedule(Intended, b, s.at.sent, s.at.polled, e.instanceId, CheckCommand(queues.value), 0);
    var middle := CheckInstance(b, s.at, e, queues).effects;
    assert middle[..|run.effects|] == run.effects;
    assert Added(b, queues, s, m) == middle + [Delete(m.receiptHandle)];
  }

  /** The event test short-circuits: an event from another origin is
      ignored and only deleted, whether or not it has a `Destination`. */
  lemma OtherOriginIgnored(b: Backend, queues: Option<string>, s: BatchState, e: Event, handle: string)
    requires !s.aborted && e.origin != ORIGIN_ASG
    ensures Next(b, queues, s, Message(Some(e), handle)) == BatchState(s.effects + [Delete(handle)], s.at, false)
  {
  }

  /** When no message raises, the loop deletes every message exactly once,
      with its own receipt handle, in the order received. */
  lemma {:induction false} BatchDeletesAll(b: Backend, queues: Option<string>, s0: BatchState, messages: seq<Message>)
    requires !s0.aborted
    requires forall i :: 0 <= i < |messages| ==> !Raises(messages[i])
    ensures !Batch(b, queues, s0, messages).aborted
    ensures Deletes(Batch(b, queues, s0, messages).effects) == Deletes(s0.effects) + Handles(messages)
  {
    if messages != [] {
      var init := messages[..|messages| - 1];
      BatchDeletesAll(b, queues, s0, init);
      MessageStep(b, queues, Batch(b, queues, s0, init), messages[|messages| - 1]);
    }
  }

  /** The loop never exits on its own, and completes lifecycle actions only
      with CONTINUE. */
  lemma {:induction false} BatchLoopEffects(b: Backend, queues: Option<string>, s0: BatchState, messages: seq<Message>)
    requires LoopEffects(s0.effects)
    ensures LoopEffects(Batch(b, queues, s0, messages).effects)
  {
    if messages != [] {
      var init := messages[..|messages| - 1];
      BatchLoopEffects(b, queues, s0, init);
      var s := Batch(b, queues, s0, init);
      var m := messages[|messages| - 1];
      NextAppends(b, queues, s, m);
      AddedLoopEffects(b, queues, s, m);
      var a := Added(b, queues, s, m);
      var t := s.effects + a;
      forall i | 0 <= i < |t|
        ensures LoopEffect(t[i])
      {
        if i < |s.effects| {
          assert t[i] == s.effects[i];
        } else {
          assert t[i] == a[i - |s.effects|];
        }
      }
    }
  }

  /** With `QUEUE_URL` set and no message raising, a run deletes every
      message exactly once with its own receipt handle in the order
      received, and exits normally. */
  lemma {:induction false} EveryMessageDeletedOnce(config: Config, messages: seq<Message>, b: Backend)
    requires config.queueUrl.Some?
    requires forall i :: 0 <= i < |messages| ==> !Raises(messages[i])
    ensures Deletes(Run(config, Some(messages), b)) == Handles(messages)
    ensures forall i :: 0 <= i < |Run(config, Some(messages), b)| ==> !Run(config, Some(messages), b)[i].Exit?
  {
    var s0 := Start(config.queueUrl.value);
    BatchDeletesAll(b, config.queues, s0, messages);
    assert Deletes(s0.effects) == [] by {
      assert s0.effects[..0] == [];
    }
    BatchLoopEffects(b, config.queues, s0, messages);
  }

  /** A message that raises (its body does not decode, has no `Origin`, or
      comes from the Auto Scaling group without a `Destination`) aborts the
      batch: the messages before it have each been deleted once, in order,
      and the process exits with an uncaught exception; it and the messages
      after it stay in the queue. */
  lemma {:induction false} MalformedMessageAbortsBatch(config: Config, messages: seq<Message>, b: Backend, k: nat)
    requires config.queueUrl.Some?
    requires k < |messages| && Raises(messages[k])
    requires forall i :: 0 <= i < k ==> !Raises(messages[i])
    ensures var t := Run(config, Some(messages), b);
      Deletes(t) == Handles(messages[..k]) && t[|t| - 1] == Exit(EXIT_UNCAUGHT)
  {
    var s0 := Start(config.queueUrl.value);
    var q := config.queues;
    BatchDeletesAll(b, q, s0, messages[..k]);
    BatchStep(b, q, s0, messages, k);
    AbortAbsorbs(b, q, s0, messages, k + 1);
    var s := Batch(b, q, s0, messages);
    assert Deletes(s0.effects) == [] by {
      assert s0.effects[..0] == [];
    }
    DeletesConcat(s.effects, [Exit(EXIT_UNCAUGHT)]);
    assert Deletes([Exit(EXIT_UNCAUGHT)]) == [] by {
      assert [Exit(EXIT_UNCAUGHT)][..0] == [];
    }
  }

  /** Every lifecycle completion a run sends says CONTINUE; ABANDON is never
      sent. */
  lemma {:induction false} OnlyContinueSent(config: Config, reply: Option<seq<Message>>, b: Backend)
    ensures var t := Run(config, reply, b);
      forall i :: 0 <= i < |t| && t[i].CompleteLifecycle? ==> t[i].result == CONTINUE
  {
    if config.queueUrl.Some? && reply.Some? {
      var s0 := Start(config.queueUrl.value);
      BatchLoopEffects(b, config.queues, s0, reply.value);
      var s := Batch(b, config.queues, s0, reply.value);
      var t := Run(config, reply, b);
      forall i | 0 <= i < |t| && t[i].CompleteLifecycle?
        ensures t[i].result == CONTINUE
      {
        if s.aborted {
          assert t == s.effects + [Exit(EXIT_UNCAUGHT)];
          assert t[|s.effects|].Exit?;
        }
        assert i < |s.effects| && t[i] == s.effects[i];
      }
    }
  }
}
