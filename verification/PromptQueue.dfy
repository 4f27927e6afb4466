/** Prompts from several threads shown one at a time: the approval or question on display, the queue
    behind it, and what is kept for threads in the background. */
module PromptQueue {
  import opened Wrappers

  datatype Approval = Approval(id: string, turn: string, thread: string, command: string)
  datatype Question = Question(call: string, turn: string, thread: string, text: string)
  datatype Prompt = ExecApproval(approval: Approval) | UserInput(question: Question)

  datatype Pending = Pending(id: string, turn: Option<string>)
  datatype Counts = Counts(approvals: nat, inputs: nat)

  /** `shown` lists every prompt handed to the bottom pane, oldest first. The program runs until a
      decision cannot be submitted: that error leaves its main loop. */
  datatype State = State(
    running: bool,
    pending: Option<Pending>, request: Option<Approval>, question: Option<Question>, queue: seq<Prompt>,
    counts: map<string, Counts>, approvals: map<string, seq<Approval>>, questions: map<string, seq<Question>>,
    shown: seq<Prompt>)

  const INITIAL := State(true, None, None, None, [], map[], map[], map[], [])

  datatype Event =
    | BackgroundApproval(approval: Approval)
    | BackgroundQuestion(question: Question)
    | ForegroundPrompt(prompt: Prompt)
    | Picked(prompt: Prompt)
    | BackgroundTurnFinished(thread: string)
    | ForegroundTurnFinished(thread: string)
    | Decided | DecisionNotSent | Dismissed
    | ThreadSwitched | TeamCleanedUp

  // ---------- the steps ----------

  predicate HasActive(s: State) { s.pending.Some? || s.question.Some? }

  function Thread(p: Prompt): string { if p.ExecApproval? then p.approval.thread else p.question.thread }

  /** Approvals are told apart by their id; questions only by their turn, although each has a call of its
      own. */
  predicate SamePrompt(a: Prompt, b: Prompt) {
    (a.ExecApproval? && b.ExecApproval? && a.approval.id == b.approval.id)
    || (a.UserInput? && b.UserInput? && a.question.turn == b.question.turn)
  }

  function WithoutPrompt(queue: seq<Prompt>, p: Prompt): seq<Prompt> {
    if queue == [] then [] else (if SamePrompt(queue[0], p) then [] else [queue[0]]) + WithoutPrompt(queue[1..], p)
  }

  function WithoutThread(queue: seq<Prompt>, thread: string): seq<Prompt> {
    if queue == [] then []
      else (if Thread(queue[0]) == thread then [] else [queue[0]]) + WithoutThread(queue[1..], thread)
  }

  function WithoutId(list: seq<Approval>, id: string): seq<Approval> {
    if list == [] then [] else (if list[0].id == id then [] else [list[0]]) + WithoutId(list[1..], id)
  }

  function WithoutTurn(list: seq<Question>, turn: string): seq<Question> {
    if list == [] then [] else (if list[0].turn == turn then [] else [list[0]]) + WithoutTurn(list[1..], turn)
  }

  function CountOf(s: State, thread: string): Counts { if thread in s.counts then s.counts[thread] else Counts(0, 0) }

  function ApprovalsOf(s: State, thread: string): seq<Approval> {
    if thread in s.approvals then s.approvals[thread] else []
  }

  function QuestionsOf(s: State, thread: string): seq<Question> {
    if thread in s.questions then s.questions[thread] else []
  }

  /** An entry that reaches zero is removed. */
  function Decremented(counts: map<string, Counts>, thread: string, p: Prompt): map<string, Counts> {
    if thread !in counts then counts
    else
      var c := counts[thread];
      var next := if p.ExecApproval? then c.(approvals := Less1(c.approvals)) else c.(inputs := Less1(c.inputs));
      if next == Counts(0, 0) then counts - {thread} else counts[thread := next]
  }

  function Open(s: State, p: Prompt): State {
    var rest := WithoutPrompt(s.queue, p);
    if HasActive(s) then s.(queue := [p] + rest)
    else
      var t := s.(queue := rest, counts := Decremented(s.counts, Thread(p), p), shown := s.shown + [p]);
      match p
      case ExecApproval(a) =>
        t.(pending := Some(Pending(a.id, Some(a.turn))), request := Some(a),
           approvals :=
             if a.thread in s.approvals then s.approvals[a.thread := WithoutId(s.approvals[a.thread], a.id)]
             else s.approvals)
      case UserInput(q) =>
        t.(question := Some(q),
           questions :=
             if q.thread in s.questions then s.questions[q.thread := WithoutTurn(s.questions[q.thread], q.turn)]
             else s.questions)
  }

  function OpenNext(s: State): State {
    if HasActive(s) || s.queue == [] then s else Open(s.(queue := s.queue[1..]), s.queue[0])
  }

  function Enqueue(s: State, p: Prompt): State { OpenNext(s.(queue := s.queue + [p])) }

  /** A prompt of a thread in the background is counted and kept. */
  function Stored(s: State, p: Prompt): State {
    var thread := Thread(p);
    var c := CountOf(s, thread);
    match p
    case ExecApproval(a) =>
      s.(counts := s.counts[thread := c.(approvals := c.approvals + 1)],
         approvals := s.approvals[thread := ApprovalsOf(s, thread) + [a]])
    case UserInput(q) =>
      s.(counts := s.counts[thread := c.(inputs := c.inputs + 1)],
         questions := s.questions[thread := QuestionsOf(s, thread) + [q]])
  }

  function Forget(s: State, thread: string): State {
    s.(counts := s.counts - {thread}, approvals := s.approvals - {thread}, questions := s.questions - {thread},
       queue := WithoutThread(s.queue, thread))
  }

  function Step(s: State, e: Event): State { if s.running then React(s, e) else s }

  function React(s: State, e: Event): State {
    match e
    case BackgroundApproval(a) => Enqueue(Stored(s, ExecApproval(a)), ExecApproval(a))
    case BackgroundQuestion(q) => Enqueue(Stored(s, UserInput(q)), UserInput(q))
    case ForegroundPrompt(p) => Enqueue(s, p)
    case Picked(p) => Open(s, p)
    case BackgroundTurnFinished(thread) => Forget(s, thread)
    case ForegroundTurnFinished(thread) =>
      var t := if s.request.Some? && s.request.value.thread == thread then s.(pending := None, request := None) else s;
      var u := if t.question.Some? && t.question.value.thread == thread then t.(question := None) else t;
      OpenNext(Forget(u, thread))
    case Decided => if s.pending.None? then s else OpenNext(s.(pending := None, request := None))
    case DecisionNotSent => if s.pending.None? then s else s.(pending := None, running := false)
    case Dismissed => OpenNext(s.(question := None))
    case ThreadSwitched => Restore(s)
    case TeamCleanedUp => INITIAL.(shown := s.shown)
  }

  /** Shows the active prompt again, or the next one. */
  function Restore(s: State): State {
    if s.request.Some? && s.pending.Some? then s.(shown := s.shown + [ExecApproval(s.request.value)])
    else
      var t := s.(request := None);
      if t.question.Some? then t.(shown := t.shown + [UserInput(t.question.value)]) else OpenNext(t)
  }

  function Run(s: State, events: seq<Event>): State
    decreases |events|
  {
    if events == [] then s else Run(Step(s, events[0]), events[1..])
  }

  // ---------- the application's fields ----------

  class App {
    var running: bool
    var pendingApproval: Option<Pending>
    var pendingApprovalRequest: Option<Approval>
    var pendingUserInputRequest: Option<Question>
    var promptQueue: seq<Prompt>
    var backgroundPending: map<string, Counts>
    var backgroundApprovals: map<string, seq<Approval>>
    var backgroundUserInputs: map<string, seq<Question>>
    var shown: seq<Prompt>

    ghost function Model(): State
      reads this
    {
      State(running, pendingApproval, pendingApprovalRequest, pendingUserInputRequest, promptQueue,
            backgroundPending, backgroundApprovals, backgroundUserInputs, shown)
    }

    constructor ()
      ensures Model() == INITIAL
    {
      pendingApproval, pendingApprovalRequest, pendingUserInputRequest := None, None, None;
      promptQueue, shown, running := [], [], true;
      backgroundPending, backgroundApprovals, backgroundUserInputs := map[], map[], map[];
    }

    method EnqueuePrompt(p: Prompt)
      modifies this
      ensures Model() == Enqueue(old(Model()), p)
    {
      promptQueue := promptQueue + [p];
      MaybeOpenNextPrompt();
    }

    method MaybeOpenNextPrompt()
      modifies this
      ensures Model() == OpenNext(old(Model()))
    {
      if pendingApproval.Some? || pendingUserInputRequest.Some? {
        return;
      }
      if promptQueue == [] {
        return;
      }
      var p := promptQueue[0];
      promptQueue := promptQueue[1..];
      match p {
        case ExecApproval(req) => OpenBackgroundApproval(req);
        case UserInput(req) => OpenBackgroundUserInput(req);
      }
    }

    method OpenBackgroundApproval(req: Approval)
      modifies this
      ensures Model() == Open(old(Model()), ExecApproval(req))
    {
      promptQueue := WithoutPrompt(promptQueue, ExecApproval(req));
      if pendingApproval.Some? || pendingUserInputRequest.Some? {
        promptQueue := [ExecApproval(req)] + promptQueue;
        return;
      }
      backgroundPending := Decremented(backgroundPending, req.thread, ExecApproval(req));
      if req.thread in backgroundApprovals {
        backgroundApprovals := backgroundApprovals[req.thread := WithoutId(backgroundApprovals[req.thread], req.id)];
      }
      pendingApproval := Some(Pending(req.id, Some(req.turn)));
      pendingApprovalRequest := Some(req);
      shown := shown + [ExecApproval(req)];
    }

    method OpenBackgroundUserInput(req: Question)
      modifies this
      ensures Model() == Open(old(Model()), UserInput(req))
    {
      promptQueue := WithoutPrompt(promptQueue, UserInput(req));
      if pendingApproval.Some? || pendingUserInputRequest.Some? {
        promptQueue := [UserInput(req)] + promptQueue;
        return;
      }
      backgroundPending := Decremented(backgroundPending, req.thread, UserInput(req));
      if req.thread in backgroundUserInputs {
        backgroundUserInputs :=
          backgroundUserInputs[req.thread := WithoutTurn(backgroundUserInputs[req.thread], req.turn)];
      }
      pendingUserInputRequest := Some(req);
      shown := shown + [UserInput(req)];
    }

    method OnBackgroundApproval(req: Approval)
      requires running
      modifies this
      ensures Model() == Step(old(Model()), BackgroundApproval(req))
    {
      var counts := if req.thread in backgroundPending then backgroundPending[req.thread] else Counts(0, 0);
      backgroundPending := backgroundPending[req.thread := counts.(approvals := counts.approvals + 1)];
      var requests := if req.thread in backgroundApprovals then backgroundApprovals[req.thread] else [];
      backgroundApprovals := backgroundApprovals[req.thread := requests + [req]];
      assert Model() == Stored(old(Model()), ExecApproval(req));
      EnqueuePrompt(ExecApproval(req));
    }

    method OnBackgroundUserInput(req: Question)
      requires running
      modifies this
      ensures Model() == Step(old(Model()), BackgroundQuestion(req))
    {
      var counts := if req.thread in backgroundPending then backgroundPending[req.thread] else Counts(0, 0);
      backgroundPending := backgroundPending[req.thread := counts.(inputs := counts.inputs + 1)];
      var requests := if req.thread in backgroundUserInputs then backgroundUserInputs[req.thread] else [];
      backgroundUserInputs := backgroundUserInputs[req.thread := requests + [req]];
      assert Model() == Stored(old(Model()), UserInput(req));
      EnqueuePrompt(UserInput(req));
    }

    method ForgetThread(thread: string)
      modifies this`backgroundPending, this`backgroundApprovals, this`backgroundUserInputs, this`promptQueue
      ensures Model() == Forget(old(Model()), thread)
    {
      backgroundPending := backgroundPending - {thread};
      backgroundApprovals := backgroundApprovals - {thread};
      backgroundUserInputs := backgroundUserInputs - {thread};
      promptQueue := WithoutThread(promptQueue, thread);
    }

    /** The end of a turn; the prompt on display is closed only for the thread in the foreground. */
    method OnTurnFinished(thread: string, foreground: bool)
      requires running
      modifies this
      ensures Model() ==
        Step(old(Model()), if foreground then ForegroundTurnFinished(thread) else BackgroundTurnFinished(thread))
    {
      if !foreground {
        ForgetThread(thread);
        return;
      }
      if pendingApprovalRequest.Some? && pendingApprovalRequest.value.thread == thread {
        pendingApproval := None;
        pendingApprovalRequest := None;
      }
      if pendingUserInputRequest.Some? && pendingUserInputRequest.value.thread == thread {
        pendingUserInputRequest := None;
      }
      ForgetThread(thread);
      MaybeOpenNextPrompt();
    }

    /** The user decides; `sent` says whether the decision could be submitted. If not, the program ends. */
    method OnApprovalDecision(sent: bool)
      requires running
      modifies this
      ensures Model() == Step(old(Model()), if sent then Decided else DecisionNotSent)
    {
      if pendingApproval.Some? {
        pendingApproval := None;
        if !sent {
          running := false;
          return;
        }
        pendingApprovalRequest := None;
        MaybeOpenNextPrompt();
      }
    }

    method OnUserInputDismissed()
      requires running
      modifies this
      ensures Model() == Step(old(Model()), Dismissed)
    {
      pendingUserInputRequest := None;
      MaybeOpenNextPrompt();
    }

    method RestorePendingPrompts()
      requires running
      modifies this
      ensures Model() == Step(old(Model()), ThreadSwitched)
    {
      if pendingApprovalRequest.Some? {
        if pendingApproval.Some? {
          shown := shown + [ExecApproval(pendingApprovalRequest.value)];
          return;
        }
        pendingApprovalRequest := None;
      }
      if pendingUserInputRequest.Some? {
        shown := shown + [UserInput(pendingUserInputRequest.value)];
        return;
      }
      MaybeOpenNextPrompt();
    }

    method CleanupTeam()
      requires running
      modifies this
      ensures Model() == Step(old(Model()), TeamCleanedUp)
    {
      backgroundPending, backgroundApprovals, backgroundUserInputs := map[], map[], map[];
      promptQueue := [];
      pendingApproval, pendingApprovalRequest, pendingUserInputRequest := None, None, None;
    }
  }
}
