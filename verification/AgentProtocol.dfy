/** The guest agent's control loop and executor as one transition system.

    The loop, the executor goroutine, the child process and the wall timer interleave freely; each locked
    region of the source is one step, and so is each send.  `log` is a history variable: it records the order
    in which the locked regions ran, and no step reads it.
 */
module AgentProtocol {
  import opened Wrappers
  import Octets

  datatype Request = Request(invocationId: string, invocationDigest: string, requestDigest: string, environmentDigest: string)

  datatype Outcome = Cancelled | TimedOut | Completed | Failed

  const FRAME_LIMIT := Octets.FRAME_LIMIT

  /** `payload` is the encoded reply, which carries the captured streams and outputs. */
  datatype Result = Result(request: Request, outcome: Outcome, exitCode: int, payload: string)

  /** The fields of `invocation` that the mutex guards. */
  datatype Shared = Shared(request: Request, published: bool, result: Option<Result>, cancelled: bool)

  datatype ControlKind = Status | Cancel

  datatype Frame =
    | Launch(valid: bool, request: Request)
    | Control(kind: ControlKind, invocationId: string, invocationDigest: string)
    | Malformed

  datatype Reply =
    | AcceptedReply(invocationId: string, invocationDigest: string, requestDigest: string)
    | RunningReply(invocationId: string, invocationDigest: string, requestDigest: string)
    | ResultReply(result: Result)

  /** How a process ended: its exit code, negative for a signal, and whether a captured stream overflowed. */
  datatype Exit = Exit(code: int, overflow: bool)

  datatype Process = NotStarted | Running | Exited(exit: Exit)

  datatype Executor =
    | Absent
    | Entering
    | Untrusted
    | Published(cancelledBeforeStart: bool)
    | Selecting
    | Reaping
    | Settled(started: bool, timedOut: bool, exit: Exit)
    | Observed(cancelled: bool, started: bool, timedOut: bool, exit: Exit, readAt: nat)
    | Stored(readAt: nat)

  /** The loop is either reading a frame or about to send a reply made of locals and the immutable request. */
  datatype Loop = Receiving | Sending(reply: Reply)

  datatype Event = LaunchAccepted | CancelHandled | CommandPublished | CancelRead | ResultStored

  /** `replies` are the replies the loop issued; `delivered` are the positions of those that reached the peer. */
  datatype Agent = Agent(
    current: Option<Shared>, executor: Executor, process: Process, timerFired: bool,
    loop: Loop, replies: seq<Reply>, delivered: seq<nat>, log: seq<Event>)

  const INITIAL := Agent(None, Absent, NotStarted, false, Receiving, [], [], [])

  // ---------------------------------------------------------------------------
  // Locked regions

  function PublishCommand(sh: Shared): Shared {
    sh.(published := true)
  }

  function HandleControl(sh: Shared, kind: ControlKind): Shared {
    if kind == Cancel && sh.result.None? then sh.(cancelled := true) else sh
  }

  function StoreResult(sh: Shared, result: Result): Shared {
    sh.(result := Some(result))
  }

  /** The record as the program holds it: each method is one locked region. */
  class Invocation {
    const request: Request
    var published: bool
    var result: Option<Result>
    var cancelled: bool

    ghost function View(): Shared
      reads this
    {
      Shared(request, published, result, cancelled)
    }

    constructor (request: Request)
      ensures View() == Shared(request, false, None, false)
    {
      this.request := request;
      published, result, cancelled := false, None, false;
    }

    method Publish() returns (cancelledBeforeStart: bool)
      modifies this
      ensures View() == PublishCommand(old(View())) && cancelledBeforeStart == old(cancelled)
    {
      published := true;
      cancelledBeforeStart := cancelled;
    }

    /** `kill` tells the caller to signal the process group if there is a process. */
    method Control(kind: ControlKind) returns (seen: Option<Result>, kill: bool)
      modifies this
      ensures View() == HandleControl(old(View()), kind) && seen == old(result)
      ensures kill == (kind == Cancel && old(result).None? && old(published))
    {
      kill := false;
      if kind == Cancel && result.None? {
        cancelled := true;
        kill := published;
      }
      seen := result;
    }

    method Store(r: Result)
      modifies this
      ensures View() == StoreResult(old(View()), r)
    {
      result := Some(r);
    }
  }

  // ---------------------------------------------------------------------------
  // Steps

  datatype Step =
    | Receive(frame: Frame)
    | Send(written: bool)
    | ExecutorRefuses
    | ExecutorPublishes
    | ExecutorStarts(ok: bool)
    | TimerFires
    | ProcessExits(exit: Exit)
    | ExecutorTakesTimer
    | ExecutorTakesExit
    | ExecutorReaps
    | ExecutorReads
    | ExecutorStores(outputsRead: bool, payload: string)

  predicate Matches(frame: Frame, request: Request)
    requires frame.Control?
  {
    frame.invocationId == request.invocationId && frame.invocationDigest == request.invocationDigest
  }

  predicate Enabled(s: Agent, step: Step) {
    match step
    case Receive(_) => s.loop.Receiving?
    case Send(_) => s.loop.Sending?
    case ExecutorRefuses => s.executor.Entering?
    case ExecutorPublishes => s.executor.Entering? && s.current.Some?
    case ExecutorStarts(_) => s.executor.Published?
    case TimerFires => s.executor.Selecting? && !s.timerFired
    case ProcessExits(_) => s.process.Running?
    case ExecutorTakesTimer => s.executor.Selecting? && s.timerFired
    case ExecutorTakesExit => s.executor.Selecting? && s.process.Exited?
    case ExecutorReaps => s.executor.Reaping? && s.process.Exited?
    case ExecutorReads => s.executor.Settled? && s.current.Some?
    case ExecutorStores(_, _) => s.executor.Observed? && s.current.Some?
  }

  /** The cascade at the end of `execute`. */
  function Verdict(cancelled: bool, started: bool, timedOut: bool, exit: Exit): (Outcome, int) {
    if cancelled then (Cancelled, 143)
    else if timedOut then (TimedOut, 137)
    else if started && exit.code == 0 && !exit.overflow then (Completed, 0)
    else if started then (Failed, if exit.code < 0 || exit.code > 255 then 1 else exit.code)
    else (Failed, 1)
  }

  function ResultOf(request: Request, e: Executor, outputsRead: bool, payload: string): Result
    requires e.Observed?
  {
    var (outcome, code) := Verdict(e.cancelled, e.started, e.timedOut, e.exit);
    if outcome == Completed && !outputsRead then Result(request, Failed, 1, payload)
    else Result(request, outcome, code, payload)
  }

  function ReceiveFrame(s: Agent, frame: Frame): Agent {
    match frame
    case Launch(valid, request) =>
      if s.current.Some? || !valid then s
      else s.(current := Some(Shared(request, false, None, false)), executor := Entering,
              loop := Sending(AcceptedReply(request.invocationId, request.invocationDigest, request.requestDigest)),
              log := s.log + [LaunchAccepted])
    case Control(kind, invocationId, invocationDigest) =>
      if s.current.None? || !Matches(frame, s.current.value.request) then s
      else
        var sh := s.current.value;
        var reply := if sh.result.None? then RunningReply(invocationId, invocationDigest, sh.request.requestDigest)
                     else ResultReply(sh.result.value);
        s.(current := Some(HandleControl(sh, kind)), loop := Sending(reply),
           log := if kind == Cancel then s.log + [CancelHandled] else s.log)
    case Malformed => s
  }

  /** `sendFrame` refuses an encoded reply beyond the frame limit, and nobody looks at its error. */
  predicate Fits(reply: Reply) {
    reply.ResultReply? ==> 0 < |reply.result.payload| <= FRAME_LIMIT
  }

  function Apply(s: Agent, step: Step): Agent
    requires Enabled(s, step)
  {
    match step
    case Receive(frame) => ReceiveFrame(s, frame)
    case Send(written) =>
      s.(loop := Receiving, replies := s.replies + [s.loop.reply],
         delivered := if written && Fits(s.loop.reply) then s.delivered + [|s.replies|] else s.delivered)
    case ExecutorRefuses => s.(executor := Untrusted)
    case ExecutorPublishes =>
      s.(current := Some(PublishCommand(s.current.value)), executor := Published(s.current.value.cancelled),
         log := s.log + [CommandPublished])
    case ExecutorStarts(ok) =>
      if !s.executor.cancelledBeforeStart && ok then s.(executor := Selecting, process := Running)
      else s.(executor := Settled(false, false, Exit(1, false)))
    case TimerFires => s.(timerFired := true)
    case ProcessExits(exit) => s.(process := Exited(exit))
    case ExecutorTakesTimer => s.(executor := Reaping)
    case ExecutorTakesExit => s.(executor := Settled(true, false, s.process.exit))
    case ExecutorReaps => s.(executor := Settled(true, true, s.process.exit))
    case ExecutorReads =>
      var e := s.executor;
      s.(executor := Observed(s.current.value.cancelled, e.started, e.timedOut, e.exit, |s.log|),
         log := s.log + [CancelRead])
    case ExecutorStores(outputsRead, payload) =>
      var result := ResultOf(s.current.value.request, s.executor, outputsRead, payload);
      s.(current := Some(StoreResult(s.current.value, result)), executor := Stored(s.executor.readAt),
         log := s.log + [ResultStored])
  }

  /** Every finite interleaving: `trace[i]` is the state before `steps[i]`. */
  ghost predicate Run(trace: seq<Agent>, steps: seq<Step>) {
    && |trace| == |steps| + 1
    && trace[0] == INITIAL
    && forall i | 0 <= i < |steps| :: Enabled(trace[i], steps[i]) && trace[i + 1] == Apply(trace[i], steps[i])
  }

  // ---------------------------------------------------------------------------
  // Invariant

  ghost predicate Before(log: seq<Event>, e: Event, n: nat)
    requires n <= |log|
  {
    exists i | 0 <= i < n :: log[i] == e
  }

  ghost predicate Never(log: seq<Event>, e: Event) {
    forall i | 0 <= i < |log| :: log[i] != e
  }

  ghost predicate Once(log: seq<Event>, e: Event, at: nat) {
    at < |log| && log[at] == e && forall i | 0 <= i < |log| && i != at :: log[i] != e
  }

  /** What the peer sees: one acceptance first, then running replies, then one result repeated. */
  ghost predicate GoodReplies(replies: seq<Reply>, request: Request) {
    && (replies != [] ==> replies[0] == AcceptedReply(request.invocationId, request.invocationDigest, request.requestDigest))
    && (forall i | 0 < i < |replies| :: !replies[i].AcceptedReply?)
    && (forall i | 0 <= i < |replies| && replies[i].RunningReply? ::
          replies[i] == RunningReply(request.invocationId, request.invocationDigest, request.requestDigest))
    && (forall i, j | 0 <= i < j < |replies| && replies[i].ResultReply? :: replies[j] == replies[i])
  }

  ghost function SentOrPending(s: Agent): seq<Reply> {
    if s.loop.Sending? then s.replies + [s.loop.reply] else s.replies
  }

  /** The loop against the shared record: the replies sent, and those with the pending one, are good; every result
      among them is the stored one. */
  ghost predicate LoopInv(s: Agent)
    requires s.current.Some?
  {
    var sh := s.current.value;
    var sent := SentOrPending(s);
    && sent != []
    && GoodReplies(sent, sh.request)
    && forall i | 0 <= i < |sent| && sent[i].ResultReply? :: sh.result == Some(sent[i].result)
  }

  /** Executor phases in which no cancel has been read yet. */
  predicate Unread(e: Executor) {
    e.Entering? || e.Untrusted? || e.Published? || e.Selecting? || e.Reaping? || e.Settled?
  }

  ghost predicate ExecutorInv(s: Agent)
    requires s.current.Some?
  {
    var sh, e, log := s.current.value, s.executor, s.log;
    && !e.Absent?
    && (Unread(e) ==> && sh.result.None? && Never(log, CancelRead) && Never(log, ResultStored)
                      && (sh.cancelled <==> Before(log, CancelHandled, |log|)))
    && (e.Observed? ==> && sh.result.None? && Once(log, CancelRead, e.readAt) && Never(log, ResultStored)
                        && (e.cancelled <==> Before(log, CancelHandled, e.readAt)))
    && (e.Stored? ==> && sh.result.Some? && Once(log, CancelRead, e.readAt)
                      && (exists k :: Once(log, ResultStored, k))
                      && ResultInv(s, sh.result.value, e.readAt))
  }

  /** What a stored result says about the run. */
  ghost predicate ResultInv(s: Agent, r: Result, readAt: nat)
    requires s.current.Some?
  {
    && readAt <= |s.log|
    && r.request == s.current.value.request
    && (r.outcome == Cancelled <==> Before(s.log, CancelHandled, readAt))
    && (r.outcome == Cancelled ==> r.exitCode == 143)
    && (r.outcome == TimedOut ==> r.exitCode == 137 && s.timerFired && s.process.Exited?)
    && (r.outcome == Completed ==> r.exitCode == 0 && s.process == Exited(Exit(0, false)))
    && 0 <= r.exitCode <= 255
  }

  /** The process against the executor. */
  ghost predicate ProcessInv(s: Agent) {
    var e, p := s.executor, s.process;
    && (e.Absent? || e.Entering? || e.Untrusted? || e.Published? ==> p.NotStarted? && !s.timerFired)
    && (e.Selecting? || e.Reaping? ==> !p.NotStarted?)
    && (e.Reaping? ==> s.timerFired)
    && (e.Settled? || e.Observed? ==>
          && (e.started ==> p == Exited(e.exit))
          && (!e.started ==> p.NotStarted?)
          && (e.timedOut ==> e.started && s.timerFired))
    && (e.Stored? ==> !p.Running?)
  }

  /** A cancel handled before the command was published keeps the process from starting. */
  ghost predicate StartInv(s: Agent) {
    var log := s.log;
    && (s.executor.Absent? || s.executor.Entering? || s.executor.Untrusted? ==> Never(log, CommandPublished))
    && (s.executor.Published? ==>
          exists p :: Once(log, CommandPublished, p) && (s.executor.cancelledBeforeStart <==> Before(log, CancelHandled, p)))
    && (!s.process.NotStarted? ==> exists p :: Once(log, CommandPublished, p) && !Before(log, CancelHandled, p))
  }

  ghost predicate Inv(s: Agent) {
    && (s.current.None? ==> s.executor.Absent? && s.loop.Receiving? && s.replies == [] && s.log == [])
    && (s.current.Some? ==> LoopInv(s) && ExecutorInv(s) && s.log != [] && Once(s.log, LaunchAccepted, 0))
    && ProcessInv(s)
    && StartInv(s)
  }

  // ---------------------------------------------------------------------------
  // Every step keeps the invariant

  lemma LogGrows(log: seq<Event>, e: Event, x: Event, n: nat)
    requires n <= |log|
    ensures Before(log + [e], x, n) == Before(log, x, n)
    ensures Before(log + [e], x, |log| + 1) == (Before(log, x, |log|) || x == e)
    ensures x != e ==> Never(log, x) == Never(log + [e], x)
    ensures x != e && Once(log, x, n) ==> Once(log + [e], x, n)
    ensures Never(log, e) ==> Once(log + [e], e, |log|)
  {
    assert forall i | 0 <= i < |log| :: (log + [e])[i] == log[i];
    assert (log + [e])[|log|] == e;
    if Before(log, x, n) {
      var i :| 0 <= i < n && log[i] == x;
      assert (log + [e])[i] == x;
    }
    if Before(log, x, |log|) {
      var i :| 0 <= i < |log| && log[i] == x;
      assert (log + [e])[i] == x;
    }
  }

  lemma LoopStep(s: Agent, step: Step)
    requires Enabled(s, step) && Inv(s) && Apply(s, step).current.Some?
    ensures LoopInv(Apply(s, step))
  {
    var t := Apply(s, step);
    if s.current.Some? {
      var before, after := SentOrPending(s), SentOrPending(t);
      if step.Receive? && t != s {
        assert after == before + [t.loop.reply];
        assert forall i | 0 <= i < |before| :: after[i] == before[i];
        assert after[|before|] == t.loop.reply;
        assert forall i | 0 <= i < |before| && before[i].ResultReply? :: before[i] == t.loop.reply;
      } else {
        assert after == before;
        assert step.ExecutorStores? ==> forall i | 0 <= i < |before| :: !before[i].ResultReply?;
      }
    }
  }

  lemma ProcessStep(s: Agent, step: Step)
    requires Enabled(s, step) && Inv(s)
    ensures ProcessInv(Apply(s, step))
  {
  }

  /** How a step changes the log. */
  lemma LogStep(s: Agent, step: Step) returns (added: seq<Event>)
    requires Enabled(s, step)
    ensures |added| <= 1 && Apply(s, step).log == s.log + added
    ensures added != [] && s.current.Some? ==> added[0] != LaunchAccepted
  {
    var t := Apply(s, step);
    added := t.log[|s.log|..];
  }

  /** Executor facts under a grown log, for a step that leaves executor, result and flag alone or only cancels. */
  lemma ExecutorKept(s: Agent, t: Agent, e: Event)
    requires s.current.Some? && t.current.Some? && ExecutorInv(s)
    requires t.executor == s.executor && t.process == s.process && t.timerFired == s.timerFired
    requires t.log == s.log + [e] && e == CancelHandled
    requires t.current.value == HandleControl(s.current.value, Cancel)
    ensures ExecutorInv(t)
  {
    var n := if s.executor.Observed? || s.executor.Stored? then s.executor.readAt else 0;
    LogGrows(s.log, e, CancelRead, n);
    LogGrows(s.log, e, CancelHandled, n);
    LogGrows(s.log, e, ResultStored, 0);
    if s.executor.Stored? {
      var k :| Once(s.log, ResultStored, k);
      LogGrows(s.log, e, ResultStored, k);
    }
  }

  lemma ExecutorPublishStep(s: Agent)
    requires Enabled(s, ExecutorPublishes) && Inv(s)
    ensures ExecutorInv(Apply(s, ExecutorPublishes))
  {
    LogGrows(s.log, CommandPublished, CancelRead, 0);
    LogGrows(s.log, CommandPublished, CancelHandled, 0);
    LogGrows(s.log, CommandPublished, ResultStored, 0);
  }

  lemma ExecutorReadStep(s: Agent)
    requires Enabled(s, ExecutorReads) && Inv(s)
    ensures ExecutorInv(Apply(s, ExecutorReads))
  {
    LogGrows(s.log, CancelRead, CancelRead, 0);
    LogGrows(s.log, CancelRead, CancelHandled, |s.log|);
    LogGrows(s.log, CancelRead, ResultStored, 0);
  }

  lemma ExecutorStoreStep(s: Agent, outputsRead: bool, payload: string)
    requires Enabled(s, ExecutorStores(outputsRead, payload)) && Inv(s)
    ensures ExecutorInv(Apply(s, ExecutorStores(outputsRead, payload)))
  {
    var t := Apply(s, ExecutorStores(outputsRead, payload));
    LogGrows(s.log, ResultStored, CancelRead, s.executor.readAt);
    LogGrows(s.log, ResultStored, CancelHandled, s.executor.readAt);
    LogGrows(s.log, ResultStored, ResultStored, 0);
    assert Once(t.log, ResultStored, |s.log|);
  }

  lemma ExecutorStep(s: Agent, step: Step)
    requires Enabled(s, step) && Inv(s) && Apply(s, step).current.Some?
    ensures ExecutorInv(Apply(s, step))
  {
    var t := Apply(s, step);
    match step
    case ExecutorPublishes => ExecutorPublishStep(s);
    case ExecutorReads => ExecutorReadStep(s);
    case ExecutorStores(outputsRead, payload) => ExecutorStoreStep(s, outputsRead, payload);
    case Receive(frame) =>
      if s.current.None? {
        assert t.log == [LaunchAccepted];
      } else if t.log != s.log {
        ExecutorKept(s, t, CancelHandled);
      }
    case _ =>
      assert t.log == s.log && t.current == s.current;
  }

  lemma StartKept(s: Agent, t: Agent, e: Event)
    requires StartInv(s) && t.log == s.log + [e] && e != CommandPublished
    requires t.process == s.process && (s.executor == t.executor || !t.executor.Published?)
    requires t.executor.Absent? || t.executor.Entering? || t.executor.Untrusted? ==>
               s.executor.Absent? || s.executor.Entering? || s.executor.Untrusted?
    ensures StartInv(t)
  {
    LogGrows(s.log, e, CommandPublished, 0);
    if s.executor.Published? {
      var p :| Once(s.log, CommandPublished, p)
            && (s.executor.cancelledBeforeStart <==> Before(s.log, CancelHandled, p));
      LogGrows(s.log, e, CommandPublished, p);
      LogGrows(s.log, e, CancelHandled, p);
    }
    if !s.process.NotStarted? {
      var p :| Once(s.log, CommandPublished, p) && !Before(s.log, CancelHandled, p);
      LogGrows(s.log, e, CommandPublished, p);
      LogGrows(s.log, e, CancelHandled, p);
    }
  }

  lemma StartStep(s: Agent, step: Step)
    requires Enabled(s, step) && Inv(s)
    ensures StartInv(Apply(s, step))
  {
    var t := Apply(s, step);
    match step
    case ExecutorPublishes =>
      LogGrows(s.log, CommandPublished, CommandPublished, 0);
      LogGrows(s.log, CommandPublished, CancelHandled, |s.log|);
      assert Once(t.log, CommandPublished, |s.log|);
    case ExecutorReads => StartKept(s, t, CancelRead);
    case ExecutorStores(_, _) => StartKept(s, t, ResultStored);
    case Receive(frame) =>
      if t.log != s.log {
        StartKept(s, t, if frame.Launch? then LaunchAccepted else CancelHandled);
      }
    case _ =>
      assert t.log == s.log;
  }

  lemma StepKeepsInv(s: Agent, step: Step)
    requires Enabled(s, step) && Inv(s)
    ensures Inv(Apply(s, step))
  {
    var t := Apply(s, step);
    var added := LogStep(s, step);
    if s.current.Some? && added != [] {
      LogGrows(s.log, added[0], LaunchAccepted, 0);
    }
    ProcessStep(s, step);
    StartStep(s, step);
    if t.current.Some? {
      LoopStep(s, step);
      ExecutorStep(s, step);
    }
  }

  lemma {:induction false} RunKeepsInv(trace: seq<Agent>, steps: seq<Step>, n: nat)
    requires Run(trace, steps) && n <= |steps|
    ensures Inv(trace[n])
  {
    if n > 0 {
      RunKeepsInv(trace, steps, n - 1);
      StepKeepsInv(trace[n - 1], steps[n - 1]);
    }
  }

  // ---------------------------------------------------------------------------
  // Theorems

  /** In every run: at most one acceptance, before every other reply; no running reply after a result; every reply
      carries the accepted request's identities; and every result reply repeats the stored result. */
  lemma RepliesOfEveryRun(trace: seq<Agent>, steps: seq<Step>, n: nat)
    requires Run(trace, steps) && n <= |steps|
    ensures var s := trace[n];
            s.replies != [] ==>
              && s.current.Some?
              && GoodReplies(s.replies, s.current.value.request)
              && forall i | 0 <= i < |s.replies| && s.replies[i].ResultReply? ::
                   && s.current.value.result == Some(s.replies[i].result)
                   && s.replies[i].result.request == s.current.value.request
  {
    RunKeepsInv(trace, steps, n);
    var s := trace[n];
    if s.replies != [] {
      var sent := SentOrPending(s);
      assert forall i | 0 <= i < |s.replies| :: sent[i] == s.replies[i];
      assert s.current.value.result.Some? ==> s.executor.Stored?;
    }
  }

  lemma AcceptedRequestIsFixed(s: Agent, step: Step)
    requires Enabled(s, step) && Inv(s) && s.current.Some?
    ensures var t := Apply(s, step);
            && t.current.Some? && t.current.value.request == s.current.value.request
            && s.replies <= t.replies && s.log <= t.log
            && (s.current.value.result.Some? ==> t.current.value.result == s.current.value.result)
  {
    var added := LogStep(s, step);
  }

  /** The accepted request never changes, a stored result is never replaced, and what was sent stays sent. */
  lemma {:induction false} ResultIsStoredOnce(trace: seq<Agent>, steps: seq<Step>, i: nat, j: nat)
    requires Run(trace, steps) && i <= j <= |steps|
    ensures trace[i].replies <= trace[j].replies && trace[i].log <= trace[j].log
    ensures trace[i].current.Some? ==>
              && trace[j].current.Some?
              && trace[j].current.value.request == trace[i].current.value.request
              && (trace[i].current.value.result.Some? ==> trace[j].current.value.result == trace[i].current.value.result)
    ensures forall a, b | 0 <= a < b < |trace[j].log| && trace[j].log[a] == ResultStored :: trace[j].log[b] != ResultStored
    decreases j - i
  {
    RunKeepsInv(trace, steps, i);
    RunKeepsInv(trace, steps, j);
    if i < j {
      if trace[i].current.Some? {
        AcceptedRequestIsFixed(trace[i], steps[i]);
      } else {
        var added := LogStep(trace[i], steps[i]);
      }
      ResultIsStoredOnce(trace, steps, i + 1, j);
    }
  }

  /** Cancellation takes effect at the executor's read: whenever a result is stored it is cancelled with exit code
      143 exactly when some cancel was handled before the one read of the flag, whatever became of the process. */
  lemma CancelIsLinearizable(trace: seq<Agent>, steps: seq<Step>, n: nat)
    requires Run(trace, steps) && n <= |steps| && trace[n].current.Some? && trace[n].current.value.result.Some?
    ensures var log, r := trace[n].log, trace[n].current.value.result.value;
            && (exists at :: Once(log, CancelRead, at))
            && (forall at | Once(log, CancelRead, at) ::
                  && (r.outcome == Cancelled <==> Before(log, CancelHandled, at))
                  && (r.outcome == Cancelled ==> r.exitCode == 143))
  {
    RunKeepsInv(trace, steps, n);
    var s := trace[n];
    assert s.executor.Stored?;
    assert Once(s.log, CancelRead, s.executor.readAt);
  }

  /** A cancel handled after the result is stored changes nothing but the pending reply, which is that result. */
  lemma LateCancelIsInert(s: Agent, frame: Frame)
    requires Enabled(s, Receive(frame)) && Inv(s) && s.current.Some? && s.current.value.result.Some?
    requires frame.Control? && Matches(frame, s.current.value.request)
    ensures var t := Apply(s, Receive(frame));
            && t.(log := s.log) == s.(loop := Sending(ResultReply(s.current.value.result.value)))
            && (frame.kind == Status ==> t.log == s.log)
  {
  }

  /** If some cancel was handled before the command was published, the process never starts. */
  lemma EarlyCancelPreventsStart(trace: seq<Agent>, steps: seq<Step>, n: nat, p: nat)
    requires Run(trace, steps) && n <= |steps|
    requires Once(trace[n].log, CommandPublished, p) && Before(trace[n].log, CancelHandled, p)
    ensures trace[n].process.NotStarted?
  {
    RunKeepsInv(trace, steps, n);
  }

  /** What the remaining outcomes mean. */
  lemma OutcomesMeanWhatTheySay(trace: seq<Agent>, steps: seq<Step>, n: nat)
    requires Run(trace, steps) && n <= |steps| && trace[n].current.Some? && trace[n].current.value.result.Some?
    ensures var s, r := trace[n], trace[n].current.value.result.value;
            && 0 <= r.exitCode <= 255
            && (r.outcome == Completed ==> r.exitCode == 0 && s.process == Exited(Exit(0, false)))
            && (r.outcome == TimedOut ==> r.exitCode == 137 && s.timerFired && s.process.Exited?)
  {
    RunKeepsInv(trace, steps, n);
  }

  // ---------------------------------------------------------------------------
  // What the result says, from the steps that were taken

  /** The executor gave up waiting within the first `n` steps. */
  ghost predicate TimerTaken(steps: seq<Step>, n: nat)
    requires n <= |steps|
  {
    exists k | 0 <= k < n :: steps[k].ExecutorTakesTimer?
  }

  /** How far the executor is tells whether it took the timer. */
  ghost predicate TimerInv(e: Executor, taken: bool) {
    && (e.Absent? || e.Entering? || e.Untrusted? || e.Published? || e.Selecting? ==> !taken)
    && (e.Reaping? ==> taken)
    && (e.Settled? || e.Observed? ==> (e.timedOut <==> taken))
  }

  lemma TimerStep(s: Agent, step: Step, taken: bool)
    requires Enabled(s, step) && Inv(s) && TimerInv(s.executor, taken)
    ensures TimerInv(Apply(s, step).executor, taken || step.ExecutorTakesTimer?)
  {
  }

  lemma {:induction false} RunKeepsTimer(trace: seq<Agent>, steps: seq<Step>, n: nat)
    requires Run(trace, steps) && n <= |steps|
    ensures TimerInv(trace[n].executor, TimerTaken(steps, n))
  {
    if n > 0 {
      RunKeepsTimer(trace, steps, n - 1);
      RunKeepsInv(trace, steps, n - 1);
      TimerStep(trace[n - 1], steps[n - 1], TimerTaken(steps, n - 1));
      assert TimerTaken(steps, n) <==> TimerTaken(steps, n - 1) || steps[n - 1].ExecutorTakesTimer?;
    }
  }

  /** The exit code of a run that failed: the process's own if it started, did not fail on its outputs and its code is a
      byte, and 1 otherwise. */
  function FailureCode(process: Process): int {
    match process
    case Exited(exit) => if exit != Exit(0, false) && 0 <= exit.code <= 255 then exit.code else 1
    case _ => 1
  }

  /** In every run the result that is stored follows from what happened: cancelled if a cancel was handled before the
      read; else timed out if the executor took the timer; else completed exactly when the process ended cleanly with
      code zero and its outputs were read; else failed. */
  lemma ResultOfEveryRun(trace: seq<Agent>, steps: seq<Step>, n: nat, at: nat)
    requires Run(trace, steps) && n < |steps| && steps[n].ExecutorStores? && Once(trace[n].log, CancelRead, at)
    ensures trace[n + 1].current.Some? && trace[n + 1].current.value.result.Some?
    ensures var r, process := trace[n + 1].current.value.result.value, trace[n].process;
            var cancelled, timedOut := Before(trace[n].log, CancelHandled, at), TimerTaken(steps, n);
            var clean := process == Exited(Exit(0, false)) && steps[n].outputsRead;
            && (r.outcome == Cancelled <==> cancelled)
            && (r.outcome == TimedOut <==> !cancelled && timedOut)
            && (r.outcome == Completed <==> !cancelled && !timedOut && clean)
            && (r.outcome == Failed <==> !cancelled && !timedOut && !clean)
            && r.exitCode == (if cancelled then 143 else if timedOut then 137 else if clean then 0 else FailureCode(process))
            && r.payload == steps[n].payload
  {
    RunKeepsInv(trace, steps, n);
    RunKeepsTimer(trace, steps, n);
    var s := trace[n];
    assert Once(s.log, CancelRead, s.executor.readAt);
    assert at == s.executor.readAt;
  }

  /** The process is started exactly when starting succeeds and no cancel was handled before the command was published. */
  lemma StartOfEveryRun(trace: seq<Agent>, steps: seq<Step>, n: nat, p: nat)
    requires Run(trace, steps) && n < |steps| && steps[n].ExecutorStarts? && Once(trace[n].log, CommandPublished, p)
    ensures trace[n + 1].process == Running <==> steps[n].ok && !Before(trace[n].log, CancelHandled, p)
  {
    RunKeepsInv(trace, steps, n);
    var q :| Once(trace[n].log, CommandPublished, q)
             && (trace[n].executor.cancelledBeforeStart <==> Before(trace[n].log, CancelHandled, q));
    assert p == q;
  }

  /** What each frame makes the loop do: the first valid launch is accepted, a matching request is answered, and every
      other frame is ignored. */
  lemma FramesAreAnswered(s: Agent, frame: Frame)
    requires Enabled(s, Receive(frame)) && Inv(s)
    ensures var t := Apply(s, Receive(frame));
            match frame
            case Launch(valid, request) =>
              if valid && s.current.None?
              then && t.executor.Entering? && t.current == Some(Shared(request, false, None, false))
                   && t.loop == Sending(AcceptedReply(request.invocationId, request.invocationDigest, request.requestDigest))
              else t == s
            case Control(kind, id, digest) =>
              if s.current.Some? && id == s.current.value.request.invocationId && digest == s.current.value.request.invocationDigest
              then && t.loop.Sending? && (t.loop.reply.ResultReply? <==> s.current.value.result.Some?)
                   && (t.current.value.cancelled <==> s.current.value.cancelled || (kind == Cancel && s.current.value.result.None?))
              else t == s
            case Malformed => t == s
  {
  }

  // ---------------------------------------------------------------------------
  // Every accepted launch is brought to an end

  /** A step outside the control loop: of the executor, the process or the timer. */
  predicate OfExecutor(step: Step) {
    !step.Receive? && !step.Send?
  }

  function Work(steps: seq<Step>): nat {
    if steps == [] then 0 else Work(steps[..|steps| - 1]) + if OfExecutor(steps[|steps| - 1]) then 1 else 0
  }

  /** An upper bound on the steps still to come outside the loop. */
  function Remaining(s: Agent): nat {
    var phase := match s.executor
                 case Absent => 6
                 case Entering => 6
                 case Published(_) => 5
                 case Selecting => 4
                 case Reaping => 3
                 case Settled(_, _, _) => 2
                 case Observed(_, _, _, _, _) => 1
                 case Stored(_) => 0
                 case Untrusted => 0;
    phase + (if s.process.Exited? then 0 else 1) + if s.timerFired then 0 else 1
  }

  lemma WorkShrinks(s: Agent, step: Step)
    requires Enabled(s, step) && Inv(s)
    ensures OfExecutor(step) ==> Remaining(Apply(s, step)) < Remaining(s)
    ensures !OfExecutor(step) ==> Remaining(Apply(s, step)) == Remaining(s)
  {
  }

  /** However the loop is kept busy, a launch takes at most eight steps outside it. */
  lemma {:induction false} WorkIsBounded(trace: seq<Agent>, steps: seq<Step>, n: nat)
    requires Run(trace, steps) && n <= |steps|
    ensures Work(steps[..n]) + Remaining(trace[n]) <= 8
  {
    if n > 0 {
      WorkIsBounded(trace, steps, n - 1);
      RunKeepsInv(trace, steps, n - 1);
      WorkShrinks(trace[n - 1], steps[n - 1]);
      assert steps[..n][..n - 1] == steps[..n - 1];
    }
  }

  /** In every run the loop can take a step; and once executor, process and timer have come to rest, an accepted launch
      has its result, exactly unless its executable was not trusted. */
  lemma NeverStuck(trace: seq<Agent>, steps: seq<Step>, n: nat, frame: Frame, written: bool)
    requires Run(trace, steps) && n <= |steps|
    ensures Enabled(trace[n], Receive(frame)) || Enabled(trace[n], Send(written))
    ensures trace[n].current.Some? && (forall step | OfExecutor(step) :: !Enabled(trace[n], step)) ==>
              (trace[n].current.value.result.Some? <==> !trace[n].executor.Untrusted?)
  {
    RunKeepsInv(trace, steps, n);
    var s := trace[n];
    var next := match s.executor
                case Entering => ExecutorPublishes
                case Published(_) => ExecutorStarts(false)
                case Selecting => if s.process.Exited? then ExecutorTakesExit else ProcessExits(Exit(0, false))
                case Reaping => if s.process.Exited? then ExecutorReaps else ProcessExits(Exit(0, false))
                case Settled(_, _, _) => ExecutorReads
                case _ => ExecutorStores(false, []);
    assert OfExecutor(next);
  }

  // ---------------------------------------------------------------------------
  // Delivery

  /** The delivered replies are issued ones that fit a frame, in the order they were issued. */
  ghost predicate DeliveredInOrder(s: Agent) {
    && (forall k | 0 <= k < |s.delivered| :: s.delivered[k] < |s.replies| && Fits(s.replies[s.delivered[k]]))
    && (forall k, m | 0 <= k < m < |s.delivered| :: s.delivered[k] < s.delivered[m])
  }

  lemma StepKeepsDelivery(s: Agent, step: Step)
    requires Enabled(s, step) && DeliveredInOrder(s)
    ensures DeliveredInOrder(Apply(s, step))
  {
    var t := Apply(s, step);
    assert forall i | 0 <= i < |s.replies| :: t.replies[i] == s.replies[i];
  }

  lemma {:induction false} RunKeepsDelivery(trace: seq<Agent>, steps: seq<Step>, n: nat)
    requires Run(trace, steps) && n <= |steps|
    ensures DeliveredInOrder(trace[n])
  {
    if n > 0 {
      RunKeepsDelivery(trace, steps, n - 1);
      StepKeepsDelivery(trace[n - 1], steps[n - 1]);
    }
  }

  /** What reaches the peer in every run, whatever is lost on the way: an acceptance only first, no running reply after
      a result, every result the stored one, all with the accepted identities, and no result beyond the frame limit. */
  lemma DeliveriesOfEveryRun(trace: seq<Agent>, steps: seq<Step>, n: nat, k: nat, m: nat)
    requires Run(trace, steps) && n <= |steps| && k < m < |trace[n].delivered|
    ensures var s := trace[n];
            && s.delivered[k] < |s.replies| && s.delivered[m] < |s.replies| && s.current.Some?
            && var first, later, request := s.replies[s.delivered[k]], s.replies[s.delivered[m]], s.current.value.request;
               && !later.AcceptedReply?
               && (later.RunningReply? ==>
                     later == RunningReply(request.invocationId, request.invocationDigest, request.requestDigest) && !first.ResultReply?)
               && (later.ResultReply? ==>
                     && s.current.value.result == Some(later.result) && later.result.request == request
                     && |later.result.payload| <= FRAME_LIMIT)
  {
    RunKeepsDelivery(trace, steps, n);
    RepliesOfEveryRun(trace, steps, n);
    var s := trace[n];
    assert s.delivered[k] < s.delivered[m];
    assert Fits(s.replies[s.delivered[m]]);
  }

  /** Once a result is stored, asking for it delivers it if and only if its frame fits and the channel takes it. */
  lemma StoredResultDelivery(s: Agent, frame: Frame, written: bool)
    requires Inv(s) && s.loop.Receiving? && s.current.Some? && s.current.value.result.Some?
    requires frame.Control? && Matches(frame, s.current.value.request)
    ensures var asked := Apply(s, Receive(frame));
            && Enabled(asked, Send(written))
            && var answered := Apply(asked, Send(written));
               && answered.replies == s.replies + [ResultReply(s.current.value.result.value)]
               && (answered.delivered == s.delivered + [|s.replies|] <==>
                     written && 0 < |s.current.value.result.value.payload| <= FRAME_LIMIT)
  {
  }

  /** A stored result whose frame is too large is never delivered, however often it is asked for. */
  lemma OversizedResultIsLost(trace: seq<Agent>, steps: seq<Step>, n: nat, k: nat)
    requires Run(trace, steps) && n <= |steps| && k < |trace[n].delivered|
    requires trace[n].current.Some? && trace[n].current.value.result.Some?
    requires |trace[n].current.value.result.value.payload| > FRAME_LIMIT
    ensures trace[n].delivered[k] < |trace[n].replies| && !trace[n].replies[trace[n].delivered[k]].ResultReply?
  {
    RunKeepsDelivery(trace, steps, n);
    RepliesOfEveryRun(trace, steps, n);
    assert Fits(trace[n].replies[trace[n].delivered[k]]);
  }
}
