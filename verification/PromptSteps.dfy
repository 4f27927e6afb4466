/** What each event does to the prompts, and the exact number announced for a thread. */
module PromptSteps {
  import opened Wrappers
  import opened PromptQueue
  import opened PromptProofs

  // ---------- what is left out of a list ----------

  /** Wherever a prompt of the thread is in the queue it leaves, and no other prompt does. */
  lemma {:induction false} ThreadLeaves(before: seq<Prompt>, p: Prompt, after: seq<Prompt>, thread: string)
    ensures WithoutThread(before + [p] + after, thread) ==
      WithoutThread(before, thread) + (if Thread(p) == thread then [] else [p]) + WithoutThread(after, thread)
    ensures WithoutThread([], thread) == []
    decreases |before|
  {
    var all := before + [p] + after;
    if before == [] {
      assert all[0] == p && all[1..] == after;
      assert [] + (if Thread(p) == thread then [] else [p]) == if Thread(p) == thread then [] else [p];
    } else {
      assert all[0] == before[0] && all[1..] == before[1..] + [p] + after;
      ThreadLeaves(before[1..], p, after, thread);
    }
  }

  lemma {:induction false} IdLeaves(before: seq<Approval>, a: Approval, after: seq<Approval>, id: string)
    ensures WithoutId(before + [a] + after, id) ==
      WithoutId(before, id) + (if a.id == id then [] else [a]) + WithoutId(after, id)
    ensures WithoutId([], id) == []
    decreases |before|
  {
    var all := before + [a] + after;
    if before == [] {
      assert all[0] == a && all[1..] == after;
      assert [] + (if a.id == id then [] else [a]) == if a.id == id then [] else [a];
    } else {
      assert all[0] == before[0] && all[1..] == before[1..] + [a] + after;
      IdLeaves(before[1..], a, after, id);
    }
  }

  lemma {:induction false} TurnLeaves(before: seq<Question>, q: Question, after: seq<Question>, turn: string)
    ensures WithoutTurn(before + [q] + after, turn) ==
      WithoutTurn(before, turn) + (if q.turn == turn then [] else [q]) + WithoutTurn(after, turn)
    ensures WithoutTurn([], turn) == []
    decreases |before|
  {
    var all := before + [q] + after;
    if before == [] {
      assert all[0] == q && all[1..] == after;
      assert [] + (if q.turn == turn then [] else [q]) == if q.turn == turn then [] else [q];
    } else {
      assert all[0] == before[0] && all[1..] == before[1..] + [q] + after;
      TurnLeaves(before[1..], q, after, turn);
    }
  }

  lemma {:induction false} ThreadGone(queue: seq<Prompt>, thread: string)
    ensures forall p :: p in WithoutThread(queue, thread) <==> p in queue && Thread(p) != thread
  {
    if queue != [] {
      ThreadGone(queue[1..], thread);
      assert queue == [queue[0]] + queue[1..];
    }
  }

  lemma {:induction false} ThreadKept(queue: seq<Prompt>, thread: string)
    requires forall p :: p in queue ==> Thread(p) != thread
    ensures WithoutThread(queue, thread) == queue
  {
    if queue != [] {
      assert queue[0] in queue;
      ThreadKept(queue[1..], thread);
    }
  }

  // ---------- the end of a turn ----------

  /** Nothing is kept or announced for the thread any more, nor waits in the queue. */
  ghost predicate Forgotten(s: State, thread: string) {
    && CountOf(s, thread) == Counts(0, 0) && ApprovalsOf(s, thread) == [] && QuestionsOf(s, thread) == []
    && forall p :: p in s.queue ==> Thread(p) != thread
  }

  ghost predicate SameFor(s: State, t: State, thread: string) {
    CountOf(t, thread) == CountOf(s, thread) && ApprovalsOf(t, thread) == ApprovalsOf(s, thread)
    && QuestionsOf(t, thread) == QuestionsOf(s, thread)
  }

  /** The end of a turn in the background: the thread is forgotten, nothing else changes. */
  lemma BackgroundFinished(s: State, thread: string)
    requires s.running
    ensures var t := Step(s, BackgroundTurnFinished(thread));
      && Forgotten(t, thread) && (forall other :: other != thread ==> SameFor(s, t, other))
      && t.queue == WithoutThread(s.queue, thread) && t.shown == s.shown
      && t.pending == s.pending && t.request == s.request && t.question == s.question && t.running
  {
    ThreadGone(s.queue, thread);
  }

  /** The end of a turn in the foreground: the thread is forgotten and its prompt no longer active; the prompt
      of another thread stays. */
  lemma ForegroundFinished(s: State, thread: string)
    requires s.running && Orderly(s)
    ensures var t := Step(s, ForegroundTurnFinished(thread));
      && Forgotten(t, thread) && (t.request.Some? ==> t.request.value.thread != thread)
      && (t.question.Some? ==> t.question.value.thread != thread)
      && (s.request.Some? && s.request.value.thread != thread ==>
            t.pending == s.pending && t.request == s.request && t.shown == s.shown)
      && (s.question.Some? && s.question.value.thread != thread ==> t.question == s.question && t.shown == s.shown)
  {
    var a := if s.request.Some? && s.request.value.thread == thread then s.(pending := None, request := None) else s;
    var b := if a.question.Some? && a.question.value.thread == thread then a.(question := None) else a;
    var f := Forget(b, thread);
    ThreadGone(s.queue, thread);
    assert Forgotten(f, thread);
    if !HasActive(f) && f.queue != [] { OpenForgotten(f, thread); }
  }

  lemma OpenForgotten(s: State, thread: string)
    requires Forgotten(s, thread) && !HasActive(s) && s.queue != []
    ensures Forgotten(OpenNext(s), thread)
  {
    var p, rest := s.queue[0], s.queue[1..];
    assert Thread(p) != thread && forall q :: q in rest ==> q in s.queue;
    WithoutPromptShorter(rest, p);
    OpenElsewhere(s.(queue := rest), p, thread);
    assert OpenNext(s).queue == WithoutPrompt(rest, p);
  }

  function Arrival(p: Prompt): Event {
    if p.ExecApproval? then BackgroundApproval(p.approval) else BackgroundQuestion(p.question)
  }

  /** A prompt behind another one: it is counted, kept and queued, and nothing is shown. */
  lemma ArrivesBehind(s: State, p: Prompt)
    requires s.running && HasActive(s)
    ensures var t := Step(s, Arrival(p));
      && t.queue == s.queue + [p] && t.shown == s.shown
      && t.pending == s.pending && t.request == s.request && t.question == s.question
      && (forall other :: other != Thread(p) ==> SameFor(s, t, other))
      && match p
         case ExecApproval(a) =>
           && CountOf(t, a.thread).approvals == CountOf(s, a.thread).approvals + 1
           && CountOf(t, a.thread).inputs == CountOf(s, a.thread).inputs
           && ApprovalsOf(t, a.thread) == ApprovalsOf(s, a.thread) + [a]
           && QuestionsOf(t, a.thread) == QuestionsOf(s, a.thread)
         case UserInput(q) =>
           && CountOf(t, q.thread).inputs == CountOf(s, q.thread).inputs + 1
           && CountOf(t, q.thread).approvals == CountOf(s, q.thread).approvals
           && QuestionsOf(t, q.thread) == QuestionsOf(s, q.thread) + [q]
           && ApprovalsOf(t, q.thread) == ApprovalsOf(s, q.thread)
  {
  }

  /** A prompt while nothing is active is shown at once. */
  lemma ArrivesFirst(s: State, p: Prompt)
    requires s.running && Orderly(s) && !HasActive(s)
    ensures var t := Step(s, Arrival(p));
      t.shown == s.shown + [p] && t.queue == []
      && (match p
          case ExecApproval(a) =>
            t.pending == Some(Pending(a.id, Some(a.turn))) && t.request == Some(a) && t.question.None?
          case UserInput(q) => t.question == Some(q) && t.pending.None?)
  {
    assert [] + [p] == [p] && [p][1..] == [] && WithoutPrompt([], p) == [];
  }

  /** A prompt of the foreground behind another one waits its turn, and is neither counted nor kept. */
  lemma ForegroundWaits(s: State, p: Prompt)
    requires s.running && HasActive(s)
    ensures Step(s, ForegroundPrompt(p)) == s.(queue := s.queue + [p])
  {
  }

  /** A decision that cannot be sent ends the program: no event does anything any more. */
  lemma {:induction false} UnsentEnds(s: State, events: seq<Event>)
    requires s.running && s.pending.Some?
    ensures var t := Step(s, DecisionNotSent); !t.running && t.shown == s.shown && Run(t, events) == t
    decreases |events|
  {
    if events != [] { UnsentEnds(s, events[1..]); }
  }

  /** A prompt picked by hand goes before the others while one is active; a repetition of it leaves the
      queue. */
  lemma PickedGoesFirst(s: State, p: Prompt)
    requires s.running && HasActive(s)
    ensures Step(s, Picked(p)) == s.(queue := [p] + WithoutPrompt(s.queue, p))
  {
  }

  /** After a switch of threads the active prompt is shown once more, and nothing else has changed. */
  lemma SwitchShowsAgain(s: State)
    requires s.running && Orderly(s)
    ensures Step(s, ThreadSwitched) == s.(shown := s.shown +
      if s.request.Some? then [ExecApproval(s.request.value)]
      else if s.question.Some? then [UserInput(s.question.value)] else [])
  {
    assert s.shown + [] == s.shown;
  }

  // ---------- the exact number ----------

  predicate NumberStored(s: State, thread: string) {
    && DistinctIds(ApprovalsOf(s, thread)) && DistinctTurns(QuestionsOf(s, thread))
    && CountOf(s, thread) == Counts(|ApprovalsOf(s, thread)|, |QuestionsOf(s, thread)|)
  }

  predicate StoredIn(s: State, p: Prompt) {
    match p case ExecApproval(a) => a in ApprovalsOf(s, a.thread) case UserInput(q) => q in QuestionsOf(s, q.thread)
  }

  /** For every thread exactly the prompts stored are announced, and what waits is stored. */
  ghost predicate Exact(s: State) {
    (forall thread :: NumberStored(s, thread)) && forall p :: p in s.queue ==> StoredIn(s, p)
  }

  /** A prompt arrives in the background only. */
  predicate InBackground(e: Event) { !e.ForegroundPrompt? && !e.Picked? }

  lemma {:induction false} IdTaken(list: seq<Approval>, a: Approval)
    requires DistinctIds(list) && a in list
    ensures |WithoutId(list, a.id)| == |list| - 1 && DistinctIds(WithoutId(list, a.id))
    ensures forall b :: b in list && b.id != a.id ==> b in WithoutId(list, a.id)
  {
    WithoutIdDistinct(list, a.id);
    if list[0].id == a.id {
      assert forall b | b in list[1..] :: b.id != a.id;
      WithoutIdDistinct(list[1..], a.id);
      assert [] + list[1..] == list[1..] && list == [list[0]] + list[1..];
    } else {
      assert list == [list[0]] + list[1..];
      IdTaken(list[1..], a);
    }
  }

  lemma {:induction false} TurnTaken(list: seq<Question>, q: Question)
    requires DistinctTurns(list) && q in list
    ensures |WithoutTurn(list, q.turn)| == |list| - 1 && DistinctTurns(WithoutTurn(list, q.turn))
    ensures forall r :: r in list && r.turn != q.turn ==> r in WithoutTurn(list, q.turn)
  {
    WithoutTurnDistinct(list, q.turn);
    if list[0].turn == q.turn {
      assert forall r | r in list[1..] :: r.turn != q.turn;
      WithoutTurnDistinct(list[1..], q.turn);
      assert [] + list[1..] == list[1..] && list == [list[0]] + list[1..];
    } else {
      assert list == [list[0]] + list[1..];
      TurnTaken(list[1..], q);
    }
  }

  lemma OpenApprovalExact(s: State, a: Approval)
    requires Exact(s) && !HasActive(s) && s.queue != [] && s.queue[0] == ExecApproval(a)
    ensures Exact(OpenNext(s))
  {
    var p, rest, t := s.queue[0], s.queue[1..], OpenNext(s);
    assert StoredIn(s, p) && NumberStored(s, a.thread);
    WithoutPromptShorter(rest, p);
    IdTaken(ApprovalsOf(s, a.thread), a);
    forall thread ensures NumberStored(t, thread) { assert NumberStored(s, thread); }
    forall q | q in t.queue ensures StoredIn(t, q) { assert q in s.queue && StoredIn(s, q) && !SamePrompt(q, p); }
  }

  lemma OpenQuestionExact(s: State, q: Question)
    requires Exact(s) && !HasActive(s) && s.queue != [] && s.queue[0] == UserInput(q)
    ensures Exact(OpenNext(s))
  {
    var p, rest, t := s.queue[0], s.queue[1..], OpenNext(s);
    assert StoredIn(s, p) && NumberStored(s, q.thread);
    WithoutPromptShorter(rest, p);
    TurnTaken(QuestionsOf(s, q.thread), q);
    forall thread ensures NumberStored(t, thread) { assert NumberStored(s, thread); }
    forall r | r in t.queue ensures StoredIn(t, r) { assert r in s.queue && StoredIn(s, r) && !SamePrompt(r, p); }
  }

  lemma OpenNextExact(s: State)
    requires Exact(s)
    ensures Exact(OpenNext(s))
  {
    if !HasActive(s) && s.queue != [] {
      match s.queue[0] case ExecApproval(a) => OpenApprovalExact(s, a); case UserInput(q) => OpenQuestionExact(s, q);
    }
  }

  lemma ArrivalExact(s: State, p: Prompt)
    requires Exact(s)
    requires Fresh(s, Arrival(p))
    ensures var t := Stored(s, p); Exact(t.(queue := t.queue + [p]))
  {
    var stored := Stored(s, p);
    var t := stored.(queue := stored.queue + [p]);
    assert NumberStored(s, Thread(p));
    forall thread ensures NumberStored(t, thread) { assert NumberStored(s, thread); }
    forall q | q in t.queue ensures StoredIn(t, q) { if q in s.queue { assert StoredIn(s, q); } }
  }

  lemma ForgetExact(s: State, thread: string)
    requires Exact(s)
    ensures Exact(Forget(s, thread))
  {
    var t := Forget(s, thread);
    ThreadGone(s.queue, thread);
    forall other ensures NumberStored(t, other) { assert NumberStored(s, other); }
    forall p | p in t.queue ensures StoredIn(t, p) { assert StoredIn(s, p); }
  }

  /** Only what is active differs, or the prompts are shown again. */
  lemma SameExact(s: State, t: State)
    requires Exact(s) && t.queue == s.queue
    requires t.counts == s.counts && t.approvals == s.approvals && t.questions == s.questions
    ensures Exact(t)
  {
    forall thread ensures NumberStored(t, thread) { assert NumberStored(s, thread); }
    forall p | p in t.queue ensures StoredIn(t, p) { assert StoredIn(s, p); }
  }

  lemma FinishedExact(s: State, thread: string)
    requires Exact(s)
    ensures Exact(React(s, ForegroundTurnFinished(thread)))
  {
    var t := if s.request.Some? && s.request.value.thread == thread then s.(pending := None, request := None) else s;
    var u := if t.question.Some? && t.question.value.thread == thread then t.(question := None) else t;
    SameExact(s, u);
    ForgetExact(u, thread);
    OpenNextExact(Forget(u, thread));
  }

  lemma SwitchedExact(s: State)
    requires Exact(s)
    ensures Exact(Restore(s))
  {
    var t := s.(request := None);
    SameExact(s, t);
    OpenNextExact(t);
    if s.request.Some? && s.pending.Some? { SameExact(s, Restore(s)); }
    else if t.question.Some? { SameExact(s, Restore(s)); }
  }

  lemma StepExact(s: State, e: Event)
    requires Exact(s) && Fresh(s, e) && InBackground(e)
    ensures Exact(Step(s, e))
  {
    if !s.running { return; }
    match e
    case BackgroundApproval(a) =>
      ArrivalExact(s, ExecApproval(a));
      var t := Stored(s, ExecApproval(a));
      OpenNextExact(t.(queue := t.queue + [ExecApproval(a)]));
    case BackgroundQuestion(q) =>
      ArrivalExact(s, UserInput(q));
      var t := Stored(s, UserInput(q));
      OpenNextExact(t.(queue := t.queue + [UserInput(q)]));
    case BackgroundTurnFinished(thread) => ForgetExact(s, thread);
    case ForegroundTurnFinished(thread) => FinishedExact(s, thread);
    case Decided =>
      if s.pending.Some? {
        SameExact(s, s.(pending := None, request := None));
        OpenNextExact(s.(pending := None, request := None));
      }
    case DecisionNotSent => SameExact(s, Step(s, e));
    case Dismissed =>
      SameExact(s, s.(question := None));
      OpenNextExact(s.(question := None));
    case ThreadSwitched => SwitchedExact(s);
    case TeamCleanedUp =>
  }

  /** If prompts arrive in the background only, none under the id or turn of one still stored for its thread,
      then every thread announces exactly the prompts stored for it, whatever else happens. */
  lemma {:induction false} RunExact(s: State, events: seq<Event>)
    requires Exact(s) && AllFresh(s, events) && forall e :: e in events ==> InBackground(e)
    ensures Exact(Run(s, events))
    decreases |events|
  {
    if events != [] {
      assert events[0] in events;
      StepExact(s, events[0]);
      RunExact(Step(s, events[0]), events[1..]);
    }
  }

  /** Seen from the events: if no id and no turn comes twice to a thread, every thread announces exactly the
      prompts stored for it. */
  lemma AnnouncedExactly(events: seq<Event>, thread: string)
    requires NeverReused(events) && forall e :: e in events ==> InBackground(e)
    ensures NumberStored(Run(INITIAL, events), thread)
  {
    assert [] + events == events && Exact(INITIAL);
    NeverReusedFresh(INITIAL, [], events);
    RunExact(INITIAL, events);
  }
}
