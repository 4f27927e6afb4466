/** The submission loop: one channel and one deferral queue, received from by the outer loop and, while
    a turn runs, by the loop inside it. The session, the agent and the event bus are opaque; what is
    kept is the order of the calls made to them. */
module Submissions {
  import opened Wrappers
  import opened Text

  datatype TurnConfig = TurnConfig(model: string, approval: string, sandbox: string, cwd: string)

  datatype Op =
    | ConfigureSession(cwd: string, approval: string, sandbox: string, model: string)
    | OverrideTurnContext(newCwd: Option<string>, newApproval: Option<string>, newSandbox: Option<string>,
                          newModel: Option<string>)
    | UserInput(message: string)
    | UserTurn(message: string, turnModel: string)
    | SteerInput | ExecApproval | UserInputAnswer | Compact | Interrupt | Shutdown | Unimplemented

  datatype Submission = Submission(id: string, op: Op)

  /** The calls and events that are observed, in order. */
  datatype Event =
    | Dispatched(sub: Submission)
    | Handled(sub: Submission)
    | BeganTurn(id: string, config: TurnConfig)
    | ClearedApprovals(id: string) | ClearedInputs(id: string) | EndedTurn(id: string)
    | Aborted(id: string) | ShutdownComplete

  /** Operations a running turn reacts to at once; all others wait in the queue. */
  predicate IsControl(op: Op) {
    op.SteerInput? || op.ExecApproval? || op.UserInputAnswer? || op.Interrupt? || op.Shutdown?
  }

  datatype Phase = Idle | InTurn(id: string) | Stopped

  /** `inbox` is what the channel will still deliver before it closes. `polls` counts the outcomes of
      the choice between the running turn and the channel, which the environment makes. */
  datatype State = State(phase: Phase, queue: seq<Submission>, config: TurnConfig,
                         inbox: seq<Submission>, received: seq<Submission>, polls: nat, trace: seq<Event>)

  /** Whether the turn is found finished at the n-th choice; any function is a possible schedule. */
  type Schedule = nat -> bool

  function Start(config: TurnConfig, inbox: seq<Submission>): State {
    State(Idle, [], config, inbox, [], 0, [])
  }

  function Logged(s: State, events: seq<Event>): State { s.(trace := s.trace + events) }

  function Received(s: State): State
    requires s.inbox != []
  {
    s.(inbox := s.inbox[1..], received := s.received + [s.inbox[0]])
  }

  function Configured(config: TurnConfig, op: Op): TurnConfig {
    match op
    case ConfigureSession(cwd, approval, sandbox, model) => TurnConfig(model, approval, sandbox, cwd)
    case OverrideTurnContext(cwd, approval, sandbox, model) =>
      TurnConfig(model.GetOr(config.model), approval.GetOr(config.approval),
                 sandbox.GetOr(config.sandbox), cwd.GetOr(config.cwd))
    case UserTurn(_, model) => config.(model := model)
    case _ => config
  }

  /** The message of an operation that starts a turn. */
  predicate StartsTurn(op: Op) {
    (op.UserInput? || op.UserTurn?) && Trim(op.message) != ""
  }

  function FinishTurn(s: State, id: string): State {
    Logged(s, [ClearedApprovals(id), ClearedInputs(id), EndedTurn(id)]).(phase := Idle)
  }

  function Dispatch(s: State, sub: Submission): State {
    var config := Configured(s.config, sub.op);
    var t := Logged(s, [Dispatched(sub)]).(config := config);
    if StartsTurn(sub.op) then Logged(t, [BeganTurn(sub.id, config)]).(phase := InTurn(sub.id))
    else if sub.op.Interrupt? then Logged(t, [Aborted(sub.id)])
    else if sub.op.Shutdown? then Logged(t, [ShutdownComplete]).(phase := Stopped)
    else t
  }

  /** A submission that arrives while a turn runs. */
  function DuringTurn(s: State, id: string, sub: Submission): State {
    if !IsControl(sub.op) then s.(queue := s.queue + [sub])
    else
      var t := Logged(s, [Handled(sub)]);
      if sub.op.Interrupt? then FinishTurn(Logged(t, [Aborted(id)]), id)
      else if sub.op.Shutdown? then FinishTurn(Logged(t, [ShutdownComplete]), id)
      else t
  }

  /** One step of whichever loop is running. */
  function Step(schedule: Schedule, s: State): State {
    match s.phase
    case Stopped => s
    case Idle =>
      if s.queue != [] then Dispatch(s.(queue := s.queue[1..]), s.queue[0])
      else if s.inbox != [] then Dispatch(Received(s), s.inbox[0])
      else s.(phase := Stopped)
    case InTurn(id) =>
      var t := s.(polls := s.polls + 1);
      if schedule(s.polls) || s.inbox == [] then FinishTurn(t, id)
      else DuringTurn(Received(t), id, s.inbox[0])
  }

  function Steps(schedule: Schedule, s: State, n: nat): State
    decreases n
  {
    if n == 0 then s else Steps(schedule, Step(schedule, s), n - 1)
  }

  // ---------- the loops ----------

  class SubmissionLoop {
    const schedule: Schedule
    var queue: seq<Submission>
    var turnConfig: TurnConfig
    var inbox: seq<Submission>
    var polls: nat
    var trace: seq<Event>
    ghost var received: seq<Submission>
    ghost var phase: Phase

    ghost function Model(): State
      reads this
    {
      State(phase, queue, turnConfig, inbox, received, polls, trace)
    }

    constructor (schedule: Schedule, config: TurnConfig, inbox: seq<Submission>)
      ensures this.schedule == schedule && Model() == Start(config, inbox)
    {
      this.schedule := schedule;
      queue, turnConfig, polls, trace, received, phase := [], config, 0, [], [], Idle;
      this.inbox := inbox;
    }

    method Log(event: Event)
      modifies this`trace
      ensures trace == old(trace) + [event]
    {
      trace := trace + [event];
    }

    /** Takes the next submission from the channel. */
    method Receive() returns (sub: Submission)
      requires inbox != []
      modifies this`inbox, this`received
      ensures sub == old(inbox)[0] && Model() == Received(old(Model()))
    {
      sub := inbox[0];
      inbox, received := inbox[1..], received + [inbox[0]];
    }

    method EndTurn(id: string)
      modifies this`trace, this`phase
      ensures Model() == FinishTurn(old(Model()), id)
    {
      Log(ClearedApprovals(id));
      Log(ClearedInputs(id));
      Log(EndedTurn(id));
      phase := Idle;
    }

    /** Reacts to a submission during a turn; `over` says whether the turn ends. */
    method HandleDuringTurn(id: string, sub: Submission) returns (over: bool)
      requires phase == InTurn(id)
      modifies this`queue, this`trace, this`phase
      ensures Model() == DuringTurn(old(Model()), id, sub) && (over <==> phase == Idle)
        && (!over ==> phase == InTurn(id))
    {
      over := false;
      match sub.op {
        case ExecApproval => Log(Handled(sub));
        case UserInputAnswer => Log(Handled(sub));
        case SteerInput => Log(Handled(sub));
        case Interrupt =>
          Log(Handled(sub));
          Log(Aborted(id));
          EndTurn(id);
          over := true;
        case Shutdown =>
          Log(Handled(sub));
          Log(ShutdownComplete);
          EndTurn(id);
          over := true;
        case _ =>
          queue := queue + [sub];
      }
    }

    /** The loop of a running turn. */
    method RunTurn(id: string) returns (ghost n: nat)
      requires phase == InTurn(id)
      modifies this
      ensures Model() == Steps(schedule, old(Model()), n) && phase == Idle && |inbox| <= old(|inbox|)
      ensures 3 * |inbox| + 2 * |queue| + 1 < old(3 * |inbox| + 2 * |queue| + 2)
    {
      n := 0;
      ghost var start := Model();
      var over := false;
      while !over
        invariant Model() == Steps(schedule, start, n) && phase == if over then Idle else InTurn(id)
        invariant |inbox| <= |start.inbox|
        invariant 3 * |inbox| + 2 * |queue| + (if over then 1 else 2)
                    <= 3 * |start.inbox| + 2 * |start.queue| + (if over then 1 else 2)
        decreases |inbox|, !over
      {
        ghost var before := Model();
        var ready := schedule(polls);
        polls := polls + 1;
        if ready || inbox == [] {
          EndTurn(id);
          over := true;
        } else {
          var sub := Receive();
          over := HandleDuringTurn(id, sub);
        }
        assert Model() == Step(schedule, before);
        StepsOneMore(schedule, start, n);
        n := n + 1;
      }
    }

    /** One submission, with the turn it starts, if any. */
    method DispatchSubmission(sub: Submission) returns (stop: bool, ghost n: nat)
      requires phase == Idle
      modifies this
      ensures Model() == Steps(schedule, Dispatch(old(Model()), sub), n)
      ensures stop <==> phase == Stopped
      ensures !stop ==> phase == Idle
      ensures 3 * |inbox| + 2 * |queue| <= old(3 * |inbox| + 2 * |queue|)
    {
      stop, n := false, 0;
      Log(Dispatched(sub));
      match sub.op {
        case ConfigureSession(cwd, approval, sandbox, model) =>
          turnConfig := TurnConfig(model, approval, sandbox, cwd);
        case OverrideTurnContext(cwd, approval, sandbox, model) =>
          if model.Some? { turnConfig := turnConfig.(model := model.value); }
          if approval.Some? { turnConfig := turnConfig.(approval := approval.value); }
          if sandbox.Some? { turnConfig := turnConfig.(sandbox := sandbox.value); }
          if cwd.Some? { turnConfig := turnConfig.(cwd := cwd.value); }
        case UserInput(message) =>
          n := StartTurn(sub.id, message);
        case UserTurn(message, model) =>
          turnConfig := turnConfig.(model := model);
          n := StartTurn(sub.id, message);
        case Interrupt =>
          Log(Aborted(sub.id));
        case Shutdown =>
          Log(ShutdownComplete);
          stop, phase := true, Stopped;
        case _ =>
      }
    }

    /** A turn, unless the message is blank. */
    method StartTurn(id: string, message: string) returns (ghost n: nat)
      requires phase == Idle
      modifies this
      ensures Trim(message) == "" ==> n == 0 && Model() == old(Model())
      ensures Trim(message) != "" ==>
        Model() == Steps(schedule, Logged(old(Model()), [BeganTurn(id, old(turnConfig))]).(phase := InTurn(id)), n)
      ensures phase == Idle && 3 * |inbox| + 2 * |queue| <= old(3 * |inbox| + 2 * |queue|)
    {
      n := 0;
      if Trim(message) == "" {
        return;
      }
      Log(BeganTurn(id, turnConfig));
      phase := InTurn(id);
      n := RunTurn(id);
    }

    /** The outer loop: queued submissions first, then the channel, until it closes or a shutdown is
        dispatched. */
    method Run() returns (ghost n: nat)
      requires phase == Idle
      modifies this
      ensures Model() == Steps(schedule, old(Model()), n) && phase == Stopped
    {
      n := 0;
      ghost var start := Model();
      var stop := false;
      while !stop
        invariant Model() == Steps(schedule, start, n)
        invariant phase == if stop then Stopped else Idle
        decreases !stop, 3 * |inbox| + 2 * |queue|
      {
        ghost var before := Model();
        ghost var more: nat := 0;
        if queue != [] {
          var sub := queue[0];
          queue := queue[1..];
          stop, more := DispatchSubmission(sub);
        } else if inbox != [] {
          var sub := Receive();
          stop, more := DispatchSubmission(sub);
        } else {
          stop, phase := true, Stopped;
        }
        assert Model() == Steps(schedule, Step(schedule, before), more);
        StepsBetween(schedule, start, n, more);
        n := n + 1 + more;
      }
    }
  }

  lemma {:induction false} StepsAdd(schedule: Schedule, s: State, m: nat, n: nat)
    ensures Steps(schedule, s, m + n) == Steps(schedule, Steps(schedule, s, m), n)
    decreases m
  {
    if m > 0 { StepsAdd(schedule, Step(schedule, s), m - 1, n); }
  }

  lemma StepsBetween(schedule: Schedule, s: State, m: nat, n: nat)
    ensures Steps(schedule, s, m + 1 + n) == Steps(schedule, Step(schedule, Steps(schedule, s, m)), n)
  {
    StepsAdd(schedule, s, m, 1 + n);
    assert Steps(schedule, Steps(schedule, s, m), 1 + n) == Steps(schedule, Step(schedule, Steps(schedule, s, m)), n);
  }

  lemma StepsOneMore(schedule: Schedule, s: State, n: nat)
    ensures Steps(schedule, s, n + 1) == Step(schedule, Steps(schedule, s, n))
  {
    StepsAdd(schedule, s, n, 1);
    assert Steps(schedule, Steps(schedule, s, n), 1) == Steps(schedule, Step(schedule, Steps(schedule, s, n)), 0);
  }
}
