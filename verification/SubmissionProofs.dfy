/** What every run of the submission loop keeps, whatever the interleaving of the turns with the channel. */
module SubmissionProofs {
  import opened Wrappers
  import opened Text
  import opened Submissions

  // ---------- what an observer of the trace alone can tell ----------

  /** Where a trace stands with respect to turns. */
  datatype Bracket = Outside | Inside(id: string) | Cleared(id: string) | ClearedBoth(id: string) | Broken

  /** `ran`: the deferrable operations dispatched; `reacted`: the control operations acted upon;
      `turns`: each turn begun, with the configuration it ran under. */
  datatype Ledger = Ledger(ran: seq<Submission>, reacted: seq<Submission>, turns: seq<(string, TurnConfig)>,
                           bracket: Bracket)

  const BLANK := Ledger([], [], [], Outside)

  /** A turn begins outside any other, contains only reactions, and ends by clearing the approvals, then
      the inputs, all for its own id. Nothing is dispatched inside a turn. */
  function Bracketed(b: Bracket, e: Event): Bracket {
    match e
    case Dispatched(_) => if b.Outside? then b else Broken
    case Handled(_) => if b.Inside? then b else Broken
    case BeganTurn(id, _) => if b.Outside? then Inside(id) else Broken
    case ClearedApprovals(id) => if b == Inside(id) then Cleared(id) else Broken
    case ClearedInputs(id) => if b == Cleared(id) then ClearedBoth(id) else Broken
    case EndedTurn(id) => if b == ClearedBoth(id) then Outside else Broken
    case Aborted(id) => if b.Outside? || b == Inside(id) then b else Broken
    case ShutdownComplete => if b.Outside? || b.Inside? then b else Broken
  }

  function Observed(l: Ledger, e: Event): Ledger {
    var m := l.(bracket := Bracketed(l.bracket, e));
    match e
    case Dispatched(sub) => if IsControl(sub.op) then m.(reacted := l.reacted + [sub]) else m.(ran := l.ran + [sub])
    case Handled(sub) => m.(reacted := l.reacted + [sub])
    case BeganTurn(id, config) => m.(turns := l.turns + [(id, config)])
    case _ => m
  }

  function Read(l: Ledger, trace: seq<Event>): Ledger
    decreases |trace|
  {
    if trace == [] then l else Read(Observed(l, trace[0]), trace[1..])
  }

  lemma {:induction false} ReadAppend(l: Ledger, a: seq<Event>, b: seq<Event>)
    ensures Read(l, a + b) == Read(Read(l, a), b)
    decreases |a|
  {
    if a == [] {
      assert a + b == b;
    } else {
      assert (a + b)[1..] == a[1..] + b;
      ReadAppend(Observed(l, a[0]), a[1..], b);
    }
  }

  // ---------- reference definitions ----------

  function Deferrables(subs: seq<Submission>): seq<Submission> {
    if subs == [] then [] else
      var (rest, last) := (subs[..|subs| - 1], subs[|subs| - 1]);
      Deferrables(rest) + if IsControl(last.op) then [] else [last]
  }

  function Controls(subs: seq<Submission>): seq<Submission> {
    if subs == [] then [] else
      var (rest, last) := (subs[..|subs| - 1], subs[|subs| - 1]);
      Controls(rest) + if IsControl(last.op) then [last] else []
  }

  function ConfigAfter(config: TurnConfig, subs: seq<Submission>): TurnConfig {
    if subs == [] then config else Configured(ConfigAfter(config, subs[..|subs| - 1]), subs[|subs| - 1].op)
  }

  /** The turns a list of operations calls for when simply run one after the other. */
  function Planned(config: TurnConfig, subs: seq<Submission>): seq<(string, TurnConfig)> {
    if subs == [] then [] else
      var last := subs[|subs| - 1];
      Planned(config, subs[..|subs| - 1]) + if StartsTurn(last.op) then [(last.id, ConfigAfter(config, subs))] else []
  }

  lemma OneMore(config: TurnConfig, subs: seq<Submission>, sub: Submission)
    ensures Deferrables(subs + [sub]) == Deferrables(subs) + if IsControl(sub.op) then [] else [sub]
    ensures Controls(subs + [sub]) == Controls(subs) + if IsControl(sub.op) then [sub] else []
    ensures ConfigAfter(config, subs + [sub]) == Configured(ConfigAfter(config, subs), sub.op)
    ensures Planned(config, subs + [sub]) ==
      Planned(config, subs) + if StartsTurn(sub.op) then [(sub.id, ConfigAfter(config, subs + [sub]))] else []
  {
    assert (subs + [sub])[..|subs|] == subs;
  }

  // ---------- the invariant ----------

  ghost predicate BracketIs(phase: Phase, bracket: Bracket) {
    match phase
    case InTurn(id) => bracket == Inside(id)
    case _ => bracket == Outside
  }

  /** `sub` has been taken from the queue or the channel, and not been acted upon yet. */
  ghost predicate Due(s: State, l: Ledger, config: TurnConfig, sub: Submission) {
    && l.ran + (if IsControl(sub.op) then [] else [sub]) + s.queue == Deferrables(s.received)
    && l.reacted + (if IsControl(sub.op) then [sub] else []) == Controls(s.received)
    && (forall other | other in s.queue :: !IsControl(other.op))
    && s.config == ConfigAfter(config, l.ran)
    && l.turns == Planned(config, l.ran)
  }

  /** `sub` has just arrived from the channel during a turn. */
  ghost predicate Arrived(s: State, l: Ledger, config: TurnConfig, sub: Submission) {
    && l.ran + s.queue + (if IsControl(sub.op) then [] else [sub]) == Deferrables(s.received)
    && l.reacted + (if IsControl(sub.op) then [sub] else []) == Controls(s.received)
    && (forall other | other in s.queue :: !IsControl(other.op))
    && s.config == ConfigAfter(config, l.ran)
    && l.turns == Planned(config, l.ran)
  }

  /** Nothing received is lost, repeated or reordered: `l` is the ledger of the trace. */
  ghost predicate Kept(s: State, l: Ledger, config: TurnConfig) {
    && l.ran + s.queue == Deferrables(s.received)
    && l.reacted == Controls(s.received)
    && (forall sub | sub in s.queue :: !IsControl(sub.op))
    && s.config == ConfigAfter(config, l.ran)
    && l.turns == Planned(config, l.ran)
  }

  /** The loop has stopped for a reason: the channel closed, or a shutdown was dispatched last. */
  ghost predicate StoppedWell(s: State) {
    && s.queue == []
    && (s.inbox == [] || EndsInShutdown(s))
  }

  ghost predicate EndsInShutdown(s: State) {
    && |s.received| > 0 && |s.trace| > 1 && s.received[|s.received| - 1].op.Shutdown?
    && s.trace[|s.trace| - 2..] == [Dispatched(s.received[|s.received| - 1]), ShutdownComplete]
  }

  ghost predicate Invariant(s: State, config: TurnConfig, inbox: seq<Submission>) {
    var l := Read(BLANK, s.trace);
    && s.received + s.inbox == inbox
    && Kept(s, l, config)
    && BracketIs(s.phase, l.bracket)
    && (s.phase.Stopped? ==> StoppedWell(s))
  }

  lemma ReadOne(l: Ledger, e: Event)
    ensures Read(l, [e]) == Observed(l, e)
  {
    assert Read(l, [e]) == Read(Observed(l, e), []);
  }

  lemma ReadMore(trace: seq<Event>, e: Event)
    ensures Read(BLANK, trace + [e]) == Observed(Read(BLANK, trace), e)
  {
    ReadAppend(BLANK, trace, [e]);
    ReadOne(Read(BLANK, trace), e);
  }

  /** The ledger and the configuration right after `sub` is dispatched, before any turn it starts. */
  ghost predicate Dispatching(l: Ledger, m: Ledger, config: TurnConfig, current: TurnConfig, sub: Submission) {
    && m == Observed(l, Dispatched(sub)) && m.bracket == Outside
    && current == ConfigAfter(config, m.ran)
    && (StartsTurn(sub.op) ==> Planned(config, m.ran) == m.turns + [(sub.id, current)])
    && (!StartsTurn(sub.op) ==> Planned(config, m.ran) == m.turns)
  }

  lemma Dispatches(s: State, config: TurnConfig, sub: Submission)
    requires Read(BLANK, s.trace).bracket == Outside && Due(s, Read(BLANK, s.trace), config, sub)
    ensures Dispatching(Read(BLANK, s.trace), Read(BLANK, s.trace + [Dispatched(sub)]), config,
      Configured(s.config, sub.op), sub)
  {
    OneMore(config, Read(BLANK, s.trace).ran, sub);
    ReadMore(s.trace, Dispatched(sub));
  }

  lemma DispatchKeeps(s: State, config: TurnConfig, sub: Submission)
    requires s.phase == Idle && Read(BLANK, s.trace).bracket == Outside
    requires Due(s, Read(BLANK, s.trace), config, sub)
    ensures var t := Dispatch(s, sub); var l := Read(BLANK, t.trace);
      Kept(t, l, config) && BracketIs(t.phase, l.bracket)
  {
    Dispatches(s, config, sub);
    var trace := s.trace + [Dispatched(sub)];
    if StartsTurn(sub.op) {
      TurnKeeps(s, config, sub);
    } else if sub.op.Interrupt? {
      ReadMore(trace, Aborted(sub.id));
    } else if sub.op.Shutdown? {
      ReadMore(trace, ShutdownComplete);
    }
  }

  lemma TurnKeeps(s: State, config: TurnConfig, sub: Submission)
    requires Due(s, Read(BLANK, s.trace), config, sub) && StartsTurn(sub.op)
    requires Dispatching(Read(BLANK, s.trace), Read(BLANK, s.trace + [Dispatched(sub)]), config,
      Configured(s.config, sub.op), sub)
    ensures var t := Dispatch(s, sub); var l := Read(BLANK, t.trace);
      Kept(t, l, config) && BracketIs(t.phase, l.bracket)
  {
    ReadMore(s.trace + [Dispatched(sub)], BeganTurn(sub.id, Configured(s.config, sub.op)));
  }

  lemma FinishKeeps(s: State, config: TurnConfig, id: string)
    requires Kept(s, Read(BLANK, s.trace), config) && Read(BLANK, s.trace).bracket == Inside(id)
    ensures var t := FinishTurn(s, id); var l := Read(BLANK, t.trace); Kept(t, l, config) && l.bracket == Outside
  {
    var l := Read(BLANK, s.trace);
    var (one, two) := (s.trace + [ClearedApprovals(id)], s.trace + [ClearedApprovals(id)] + [ClearedInputs(id)]);
    ReadMore(s.trace, ClearedApprovals(id));
    ReadMore(one, ClearedInputs(id));
    ReadMore(two, EndedTurn(id));
    assert two + [EndedTurn(id)] == s.trace + [ClearedApprovals(id), ClearedInputs(id), EndedTurn(id)];
  }

  lemma DuringTurnKeeps(s: State, config: TurnConfig, id: string, sub: Submission)
    requires s.phase == InTurn(id) && Read(BLANK, s.trace).bracket == Inside(id)
    requires Arrived(s, Read(BLANK, s.trace), config, sub)
    ensures var t := DuringTurn(s, id, sub); var l := Read(BLANK, t.trace);
      Kept(t, l, config) && BracketIs(t.phase, l.bracket)
  {
    var l := Read(BLANK, s.trace);
    if !IsControl(sub.op) {
      assert l.ran + (s.queue + [sub]) == l.ran + s.queue + [sub];
      return;
    }
    var t := Logged(s, [Handled(sub)]);
    ReadMore(s.trace, Handled(sub));
    if sub.op.Interrupt? {
      ReadMore(t.trace, Aborted(id));
      FinishKeeps(Logged(t, [Aborted(id)]), config, id);
    } else if sub.op.Shutdown? {
      ReadMore(t.trace, ShutdownComplete);
      FinishKeeps(Logged(t, [ShutdownComplete]), config, id);
    }
  }

  lemma StepKeeps(schedule: Schedule, s: State, config: TurnConfig, inbox: seq<Submission>)
    requires Invariant(s, config, inbox)
    ensures Invariant(Step(schedule, s), config, inbox)
  {
    match s.phase
    case Stopped =>
    case Idle =>
      if s.queue != [] {
        QueueStepKeeps(s, config, inbox);
      } else if s.inbox != [] {
        ChannelStepKeeps(s, config, inbox);
      }
    case InTurn(id) =>
      TurnStepKeeps(schedule, s, config, inbox, id);
  }

  lemma TurnStepKeeps(schedule: Schedule, s: State, config: TurnConfig, inbox: seq<Submission>, id: string)
    requires Invariant(s, config, inbox) && s.phase == InTurn(id)
    ensures Invariant(Step(schedule, s), config, inbox)
  {
    var t := s.(polls := s.polls + 1);
    if schedule(s.polls) || s.inbox == [] {
      assert Step(schedule, s) == FinishTurn(t, id);
      FinishKeeps(t, config, id);
    } else {
      assert Step(schedule, s) == DuringTurn(Received(t), id, s.inbox[0]);
      ArrivalKeeps(t, config, inbox, id);
    }
  }

  lemma ArrivalKeeps(s: State, config: TurnConfig, inbox: seq<Submission>, id: string)
    requires Invariant(s, config, inbox) && s.phase == InTurn(id) && s.inbox != []
    ensures Invariant(DuringTurn(Received(s), id, s.inbox[0]), config, inbox)
  {
    var r, sub := Received(s), s.inbox[0];
    assert r.received + r.inbox == inbox && r.phase == InTurn(id);
    assert Arrived(r, Read(BLANK, r.trace), config, sub) by { Arrives(s, config); }
    DuringTurnKeeps(r, config, id, sub);
    DuringTurnReceives(r, id, sub);
  }

  lemma Arrives(s: State, config: TurnConfig)
    requires s.inbox != [] && Kept(s, Read(BLANK, s.trace), config)
    ensures Arrived(Received(s), Read(BLANK, s.trace), config, s.inbox[0])
  {
    OneMore(config, s.received, s.inbox[0]);
  }

  lemma DuringTurnReceives(s: State, id: string, sub: Submission)
    ensures var t := DuringTurn(s, id, sub);
      t.received == s.received && t.inbox == s.inbox && (s.phase.InTurn? ==> !t.phase.Stopped?)
  {
  }

  lemma QueueStepKeeps(s: State, config: TurnConfig, inbox: seq<Submission>)
    requires Invariant(s, config, inbox) && s.phase.Idle? && s.queue != []
    ensures Invariant(Dispatch(s.(queue := s.queue[1..]), s.queue[0]), config, inbox)
  {
    var l := Read(BLANK, s.trace);
    assert s.queue[0] in s.queue;
    assert l.ran + [s.queue[0]] + s.queue[1..] == l.ran + s.queue;
    DispatchKeeps(s.(queue := s.queue[1..]), config, s.queue[0]);
  }

  lemma ChannelStepKeeps(s: State, config: TurnConfig, inbox: seq<Submission>)
    requires Invariant(s, config, inbox) && s.phase.Idle? && s.queue == [] && s.inbox != []
    ensures Invariant(Dispatch(Received(s), s.inbox[0]), config, inbox)
  {
    var r, sub := Received(s), s.inbox[0];
    assert r.received + r.inbox == inbox && r.queue == [] && r.phase == Idle;
    assert Due(r, Read(BLANK, r.trace), config, sub) by { ReceivedDue(s, config); }
    DispatchKeeps(r, config, sub);
    DispatchFrames(r, sub);
  }

  lemma ReceivedDue(s: State, config: TurnConfig)
    requires s.inbox != [] && s.queue == [] && Kept(s, Read(BLANK, s.trace), config)
    ensures Due(Received(s), Read(BLANK, s.trace), config, s.inbox[0])
  {
    OneMore(config, s.received, s.inbox[0]);
  }

  /** What dispatching leaves alone, and how it stops. */
  lemma DispatchFrames(s: State, sub: Submission)
    requires s.phase.Idle? && |s.received| > 0 && s.received[|s.received| - 1] == sub
    ensures var t := Dispatch(s, sub);
      && t.received == s.received && t.inbox == s.inbox && t.queue == s.queue
      && (t.phase.Stopped? ==> EndsInShutdown(t))
  {
    var t := Dispatch(s, sub);
    if sub.op.Shutdown? {
      assert t.trace == s.trace + [Dispatched(sub)] + [ShutdownComplete];
      assert t.trace[|t.trace| - 2..] == [Dispatched(sub), ShutdownComplete];
    }
  }

  lemma {:induction false} StepsKeep(schedule: Schedule, s: State, n: nat, config: TurnConfig, inbox: seq<Submission>)
    requires Invariant(s, config, inbox)
    ensures Invariant(Steps(schedule, s, n), config, inbox)
    decreases n
  {
    if n > 0 {
      StepKeeps(schedule, s, config, inbox);
      StepsKeep(schedule, Step(schedule, s), n - 1, config, inbox);
    }
  }

  // ---------- every run stops ----------

  function Work(s: State): nat {
    match s.phase
    case Stopped => 0
    case Idle => 3 * |s.inbox| + 2 * |s.queue| + 1
    case InTurn(_) => 3 * |s.inbox| + 2 * |s.queue| + 2
  }

  lemma StepWorks(schedule: Schedule, s: State)
    ensures s.phase.Stopped? || Work(Step(schedule, s)) < Work(s)
  {
  }

  lemma {:induction false} StopsWithin(schedule: Schedule, s: State, n: nat)
    requires Work(s) <= n
    ensures Steps(schedule, s, n).phase.Stopped?
    decreases n
  {
    if n > 0 {
      StepWorks(schedule, s);
      StopsWithin(schedule, Step(schedule, s), n - 1);
    }
  }

  // ---------- main results ----------

  /** At every point of every run: the deferrable operations dispatched so far, followed by the queue, are
      the deferrable operations received so far, in order; every control operation received has been acted
      upon, in order; the queue holds none; turns never nest. */
  lemma RunKept(schedule: Schedule, config: TurnConfig, inbox: seq<Submission>, n: nat)
    ensures Invariant(Steps(schedule, Start(config, inbox), n), config, inbox)
  {
    StepsKeep(schedule, Start(config, inbox), n, config, inbox);
  }

  lemma EveryRunStops(schedule: Schedule, config: TurnConfig, inbox: seq<Submission>)
    ensures Steps(schedule, Start(config, inbox), 3 * |inbox| + 1).phase.Stopped?
  {
    StopsWithin(schedule, Start(config, inbox), 3 * |inbox| + 1);
  }

  /** When the loop returns, every operation received was run exactly once, and the turns are those that
      running the deferrable ones in arrival order calls for. */
  lemma StoppedRun(schedule: Schedule, config: TurnConfig, inbox: seq<Submission>, n: nat)
    requires Steps(schedule, Start(config, inbox), n).phase.Stopped?
    ensures var s := Steps(schedule, Start(config, inbox), n);
      && Read(BLANK, s.trace) ==
        Ledger(Deferrables(s.received), Controls(s.received), Planned(config, Deferrables(s.received)), Outside)
      && s.config == ConfigAfter(config, Deferrables(s.received))
      && s.received + s.inbox == inbox
      && (s.received == inbox || EndsInShutdown(s))
  {
    RunKept(schedule, config, inbox, n);
    var s := Steps(schedule, Start(config, inbox), n);
    var ran := Read(BLANK, s.trace).ran;
    assert ran + [] == ran && (s.inbox == [] ==> s.received + [] == s.received);
  }

  /** Without a shutdown the interleaving decides only when control operations are acted upon: the turns,
      their configurations and the operations run are the same in every run. */
  lemma ScheduleIndependent(schedule: Schedule, other: Schedule, config: TurnConfig, inbox: seq<Submission>,
                            n: nat, m: nat)
    requires forall sub | sub in inbox :: !sub.op.Shutdown?
    requires Steps(schedule, Start(config, inbox), n).phase.Stopped?
      && Steps(other, Start(config, inbox), m).phase.Stopped?
    ensures var (s, t) := (Steps(schedule, Start(config, inbox), n), Steps(other, Start(config, inbox), m));
      Read(BLANK, s.trace) == Read(BLANK, t.trace) && s.config == t.config && s.received == inbox == t.received
  {
    StoppedRun(schedule, config, inbox, n);
    StoppedRun(other, config, inbox, m);
    NoShutdownReceived(Steps(schedule, Start(config, inbox), n), inbox);
    NoShutdownReceived(Steps(other, Start(config, inbox), m), inbox);
  }

  lemma NoShutdownReceived(s: State, inbox: seq<Submission>)
    requires s.received + s.inbox == inbox && forall sub | sub in inbox :: !sub.op.Shutdown?
    ensures !EndsInShutdown(s)
  {
    assert forall k | 0 <= k < |s.received| :: inbox[k] == s.received[k];
  }

  // ---------- brackets, read off the trace ----------

  predicate Reaction(e: Event, id: string) {
    e.Handled? || e == Aborted(id) || e.ShutdownComplete?
  }

  /** The turn begun at `i` ends at `j`: in between only reactions, then both clears. */
  predicate TurnSpan(trace: seq<Event>, i: nat, j: nat, id: string) {
    && i + 2 < j < |trace|
    && trace[j - 2..j + 1] == [ClearedApprovals(id), ClearedInputs(id), EndedTurn(id)]
    && forall k | i < k < j - 2 :: Reaction(trace[k], id)
  }

  lemma {:induction false} BrokenStays(l: Ledger, trace: seq<Event>)
    requires l.bracket.Broken?
    ensures Read(l, trace).bracket.Broken?
    decreases |trace|
  {
    if trace != [] { BrokenStays(Observed(l, trace[0]), trace[1..]); }
  }

  /** Once the approvals are cleared, or both, one event can come next. */
  lemma NextIs(l: Ledger, trace: seq<Event>, at: nat, e: Event)
    requires at <= |trace| && Read(l, trace[at..]).bracket == Outside
    requires (exists id ::
      (l.bracket == Cleared(id) && e == ClearedInputs(id)) || (l.bracket == ClearedBoth(id) && e == EndedTurn(id)))
    ensures at < |trace| && trace[at] == e && Read(Observed(l, e), trace[at + 1..]).bracket == Outside
  {
    assert at < |trace| && trace[at..][1..] == trace[at + 1..];
    if trace[at] != e { BrokenStays(Observed(l, trace[at]), trace[at + 1..]); }
  }

  /** From inside turn `id`, whose reactions so far are `trace[..at]`, to its end. */
  lemma {:induction false} TurnCloses(l: Ledger, trace: seq<Event>, i: nat, at: nat, id: string) returns (j: nat)
    requires i < at <= |trace| && l.bracket == Inside(id) && Read(l, trace[at..]).bracket == Outside
    requires forall k | i < k < at :: Reaction(trace[k], id)
    ensures TurnSpan(trace, i, j, id)
    decreases |trace| - at
  {
    var e := trace[at];
    var m := Observed(l, e);
    assert trace[at..][1..] == trace[at + 1..];
    if m.bracket.Broken? {
      BrokenStays(m, trace[at + 1..]);
    } else if m.bracket == Inside(id) {
      j := TurnCloses(m, trace, i, at + 1, id);
    } else {
      assert m.bracket == Cleared(id) && e == ClearedApprovals(id);
      NextIs(m, trace, at + 1, ClearedInputs(id));
      NextIs(m.(bracket := ClearedBoth(id)), trace, at + 2, EndedTurn(id));
      assert trace[at..at + 3] == [ClearedApprovals(id), ClearedInputs(id), EndedTurn(id)];
      j := at + 2;
    }
  }

  /** In every run that has stopped, each turn begun is later ended: reactions, `ClearedApprovals`,
      `ClearedInputs`, `EndedTurn`, all for its id, and no dispatch or other turn in between. */
  lemma TurnsBracketed(schedule: Schedule, config: TurnConfig, inbox: seq<Submission>, n: nat, i: nat) returns (j: nat)
    requires Steps(schedule, Start(config, inbox), n).phase.Stopped?
    requires i < |Steps(schedule, Start(config, inbox), n).trace|
      && Steps(schedule, Start(config, inbox), n).trace[i].BeganTurn?
    ensures var trace := Steps(schedule, Start(config, inbox), n).trace; TurnSpan(trace, i, j, trace[i].id)
  {
    RunKept(schedule, config, inbox, n);
    var trace := Steps(schedule, Start(config, inbox), n).trace;
    var l := Read(BLANK, trace[..i]);
    assert trace == trace[..i] + trace[i..] && trace[i..][1..] == trace[i + 1..];
    ReadAppend(BLANK, trace[..i], trace[i..]);
    if Observed(l, trace[i]).bracket.Broken? { BrokenStays(Observed(l, trace[i]), trace[i + 1..]); }
    j := TurnCloses(Observed(l, trace[i]), trace, i, i + 1, trace[i].id);
  }

  // ---------- what each operation does ----------

  /** The events that end a turn. */
  function Closing(id: string): seq<Event> { [ClearedApprovals(id), ClearedInputs(id), EndedTurn(id)] }

  /** While a turn runs and the channel is chosen: steering, approvals, answers, interrupts and shutdowns are
      handled in that step, past everything that waits; every other operation waits behind it, unheard. */
  lemma TurnReacts(schedule: Schedule, s: State)
    requires s.phase.InTurn? && s.inbox != [] && !schedule(s.polls)
    ensures var (t, sub, id) := (Step(schedule, s), s.inbox[0], s.phase.id);
      && t.inbox == s.inbox[1..] && t.received == s.received + [sub] && t.config == s.config
      && match sub.op
         case SteerInput | ExecApproval | UserInputAnswer =>
           t.queue == s.queue && t.phase == s.phase && t.trace == s.trace + [Handled(sub)]
         case Interrupt =>
           t.queue == s.queue && t.phase == Idle && t.trace == s.trace + [Handled(sub), Aborted(id)] + Closing(id)
         case Shutdown =>
           t.queue == s.queue && t.phase == Idle && t.trace == s.trace + [Handled(sub), ShutdownComplete] + Closing(id)
         case ConfigureSession(_, _, _, _) | OverrideTurnContext(_, _, _, _) | UserInput(_) | UserTurn(_, _)
            | Compact | Unimplemented =>
           t.queue == s.queue + [sub] && t.phase == s.phase && t.trace == s.trace
  {
    assert s.phase == InTurn(s.phase.id);
  }

  /** Between turns the operation at the front, of the queue if it has any, is run: only a message that is not
      blank begins a turn, only a shutdown stops the loop. */
  lemma IdleRuns(schedule: Schedule, s: State)
    requires s.phase.Idle? && (s.queue != [] || s.inbox != [])
    ensures var (t, sub) := (Step(schedule, s), if s.queue != [] then s.queue[0] else s.inbox[0]);
      && (if s.queue != [] then t.queue == s.queue[1..] && t.inbox == s.inbox && t.received == s.received
          else t.queue == [] && t.inbox == s.inbox[1..] && t.received == s.received + [sub])
      && match sub.op
         case UserInput(message) => Asked(s, t, sub, message)
         case UserTurn(message, _) => Asked(s, t, sub, message)
         case Interrupt => t.phase == Idle && t.trace == s.trace + [Dispatched(sub), Aborted(sub.id)]
         case Shutdown => t.phase == Stopped && t.trace == s.trace + [Dispatched(sub), ShutdownComplete]
         case ConfigureSession(_, _, _, _) | OverrideTurnContext(_, _, _, _) | SteerInput | ExecApproval
            | UserInputAnswer | Compact | Unimplemented =>
           t.phase == Idle && t.trace == s.trace + [Dispatched(sub)]
  {
    var sub := if s.queue != [] then s.queue[0] else s.inbox[0];
    if sub.op.UserInput? || sub.op.UserTurn? { TrimmedAway(sub.op.message); }
  }

  /** A message begins a turn under the configuration by then, unless it is blank. */
  ghost predicate Asked(s: State, t: State, sub: Submission, message: string) {
    if Blank(message) then t.phase == Idle && t.trace == s.trace + [Dispatched(sub)]
    else t.phase == InTurn(sub.id) && t.trace == s.trace + [Dispatched(sub), BeganTurn(sub.id, t.config)]
  }

  /** An operation sets those fields of the configuration that it names, and no other. */
  lemma ConfigSet(schedule: Schedule, s: State)
    requires s.phase.Idle? && (s.queue != [] || s.inbox != [])
    ensures var (config, op) := (Step(schedule, s).config, (if s.queue != [] then s.queue[0] else s.inbox[0]).op);
      match op
      case ConfigureSession(cwd, approval, sandbox, model) =>
        config.cwd == cwd && config.approval == approval && config.sandbox == sandbox && config.model == model
      case OverrideTurnContext(cwd, approval, sandbox, model) =>
        && (if cwd.Some? then config.cwd == cwd.value else config.cwd == s.config.cwd)
        && (if approval.Some? then config.approval == approval.value else config.approval == s.config.approval)
        && (if sandbox.Some? then config.sandbox == sandbox.value else config.sandbox == s.config.sandbox)
        && (if model.Some? then config.model == model.value else config.model == s.config.model)
      case UserTurn(_, model) =>
        && config.model == model && config.cwd == s.config.cwd && config.approval == s.config.approval
        && config.sandbox == s.config.sandbox
      case _ => config == s.config
  {
  }

  // ---------- shutdown ----------

  /** Receiving a shutdown stops the loop exactly if no turn is running. */
  lemma ShutdownStopsIdle(schedule: Schedule, s: State)
    requires s.inbox != [] && s.inbox[0].op.Shutdown? && Step(schedule, s).inbox == s.inbox[1..]
    ensures Step(schedule, s).phase.Stopped? <==> s.phase.Idle?
  {
    assert |s.inbox[1..]| < |s.inbox|;
    if s.phase.InTurn? {
      var t := s.(polls := s.polls + 1);
      assert FinishTurn(t, s.phase.id).inbox == s.inbox;
    }
  }

  lemma {:induction false} StoppedStays(schedule: Schedule, s: State, n: nat)
    requires s.phase.Stopped?
    ensures Steps(schedule, s, n) == s
    decreases n
  {
    if n > 0 { StoppedStays(schedule, s, n - 1); }
  }

  /** Operations that neither start a turn nor shut down. */
  predicate NoTurns(subs: seq<Submission>) {
    forall sub :: sub in subs ==> !StartsTurn(sub.op) && !sub.op.Shutdown?
  }

  lemma {:induction false} ShutdownReached(schedule: Schedule, s: State, a: seq<Submission>, sub: Submission,
                                           b: seq<Submission>, n: nat)
    requires s.phase.Idle? && s.queue == [] && s.inbox == a + [sub] + b && NoTurns(a) && sub.op.Shutdown?
    ensures var t := Steps(schedule, s, n);
      && (t.phase.Stopped? <==> n > |a|)
      && (t.phase.Stopped? ==> t.received == s.received + (a + [sub]) && t.inbox == b)
    decreases n
  {
    if n > 0 {
      var next := Step(schedule, s);
      assert next == Dispatch(Received(s), s.inbox[0]);
      if a == [] {
        assert s.inbox[0] == sub && s.inbox[1..] == b && [] + [sub] == [sub];
        StoppedStays(schedule, next, n - 1);
      } else {
        var rest := a[1..];
        assert s.inbox[0] == a[0] && a[0] in a && s.inbox[1..] == rest + [sub] + b;
        ShutdownReached(schedule, next, rest, sub, b, n - 1);
        Assoc(s.received, [a[0]], rest + [sub]);
        assert [a[0]] + (rest + [sub]) == a + [sub];
      }
    }
  }

  /** If nothing before a shutdown starts a turn, the loop stops at it under every schedule, and leaves what
      comes after it in the channel. */
  lemma ShutdownStops(schedule: Schedule, config: TurnConfig, a: seq<Submission>, sub: Submission,
                      b: seq<Submission>, n: nat)
    requires NoTurns(a) && sub.op.Shutdown?
    ensures var t := Steps(schedule, Start(config, a + [sub] + b), n);
      && (t.phase.Stopped? <==> n > |a|) && (t.phase.Stopped? ==> t.received == a + [sub] && t.inbox == b)
  {
    ShutdownReached(schedule, Start(config, a + [sub] + b), a, sub, b, n);
    assert [] + (a + [sub]) == a + [sub];
  }

  /** A shutdown that arrives during a turn ends the turn and nothing else: what is waiting, in the queue
      or in the channel, is still dispatched. */
  lemma ShutdownDuringTurn(schedule: Schedule, s: State, id: string)
    requires s.phase == InTurn(id) && !schedule(s.polls) && s.inbox != [] && s.inbox[0].op.Shutdown?
    ensures var t := Step(schedule, s);
      && t.phase == Idle && t.queue == s.queue && t.inbox == s.inbox[1..]
      && t.trace == s.trace
        + [Handled(s.inbox[0]), ShutdownComplete, ClearedApprovals(id), ClearedInputs(id), EndedTurn(id)]
      && (s.queue + s.inbox[1..] != [] ==> Dispatched((s.queue + s.inbox[1..])[0]) in Step(schedule, t).trace)
  {
    var t := Step(schedule, s);
    assert t.trace ==
      s.trace + [Handled(s.inbox[0]), ShutdownComplete, ClearedApprovals(id), ClearedInputs(id), EndedTurn(id)];
    if t.queue != [] {
      var next := Dispatch(t.(queue := t.queue[1..]), t.queue[0]);
      assert next.trace[|t.trace|] == Dispatched(t.queue[0]);
    } else if t.inbox != [] {
      var next := Dispatch(Received(t), t.inbox[0]);
      assert next.trace[|t.trace|] == Dispatched(t.inbox[0]);
    }
  }

  /** So a turn can begin after the shutdown was announced. */
  lemma TurnAfterShutdown(config: TurnConfig)
    ensures var inbox :=
      [Submission("1", UserInput("go")), Submission("2", Shutdown), Submission("3", UserInput("on"))];
      var s := Steps(n => false, Start(config, inbox), 3);
      s.phase == InTurn("3") && ShutdownComplete in s.trace
  {
    var never: Schedule := n => false;
    var inbox := [Submission("1", UserInput("go")), Submission("2", Shutdown), Submission("3", UserInput("on"))];
    var s := Start(config, inbox);
    assert Trim("go")[0] == 'g' && Trim("on")[0] == 'o';
    var one := Step(never, s);
    ShutdownDuringTurn(never, one, "1");
    var two := Step(never, one);
    assert ShutdownComplete == two.trace[|one.trace| + 1];
    var three := Step(never, two);
    assert three.phase == InTurn("3") && three.trace[|one.trace| + 1] == ShutdownComplete;
    assert Steps(never, s, 3) == Steps(never, one, 2) == Steps(never, two, 1) == Steps(never, three, 0);
  }
}
