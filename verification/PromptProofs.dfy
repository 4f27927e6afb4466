/** What holds of the prompts after any events, and which of them answering shows. */
module PromptProofs {
  import opened Wrappers
  import opened PromptQueue

  // ---------- one prompt at a time ----------

  /** While the program runs there is at most one active prompt, an approval waits for its decision exactly
      while its request is kept beside it, and nothing waits in the queue while nothing is active. */
  predicate Orderly(s: State) {
    s.running ==>
      && !(s.pending.Some? && s.question.Some?) && (s.request.Some? <==> s.pending.Some?)
      && (s.pending.Some? ==> s.pending.value == Pending(s.request.value.id, Some(s.request.value.turn)))
      && (s.queue != [] ==> HasActive(s))
  }

  lemma OpenOrderly(s: State, p: Prompt)
    requires Orderly(s.(queue := []))
    ensures Orderly(Open(s, p))
  {
  }

  lemma OpenNextOrderly(s: State)
    requires Orderly(s.(queue := []))
    ensures Orderly(OpenNext(s))
  {
    if !HasActive(s) && s.queue != [] { OpenOrderly(s.(queue := s.queue[1..]), s.queue[0]); }
  }

  lemma StepOrderly(s: State, e: Event)
    requires Orderly(s)
    ensures Orderly(Step(s, e))
  {
    if s.running {
      match e
      case BackgroundApproval(a) =>
        var t := Stored(s, ExecApproval(a));
        OpenNextOrderly(t.(queue := t.queue + [ExecApproval(a)]));
      case BackgroundQuestion(q) =>
        var t := Stored(s, UserInput(q));
        OpenNextOrderly(t.(queue := t.queue + [UserInput(q)]));
      case ForegroundPrompt(p) => OpenNextOrderly(s.(queue := s.queue + [p]));
      case Picked(p) => OpenOrderly(s, p);
      case ForegroundTurnFinished(thread) =>
        var t :=
          if s.request.Some? && s.request.value.thread == thread then s.(pending := None, request := None) else s;
        var u := if t.question.Some? && t.question.value.thread == thread then t.(question := None) else t;
        OpenNextOrderly(Forget(u, thread));
      case Decided => OpenNextOrderly(s.(pending := None, request := None));
      case Dismissed => OpenNextOrderly(s.(question := None));
      case ThreadSwitched => OpenNextOrderly(s);
      case _ =>
    }
  }

  /** In every reachable state there is at most one active prompt and nothing stalls. */
  lemma {:induction false} RunOrderly(s: State, events: seq<Event>)
    requires Orderly(s)
    ensures Orderly(Run(s, events))
    decreases |events|
  {
    if events != [] {
      StepOrderly(s, events[0]);
      RunOrderly(Step(s, events[0]), events[1..]);
    }
  }

  // ---------- answering ----------

  /** The user answers what is shown. */
  function Answer(s: State): State { Step(s, if s.pending.Some? then Decided else Dismissed) }

  function Answers(s: State, n: nat): State
    decreases n
  {
    if n == 0 then s else Answers(Answer(s), n - 1)
  }

  /** The queue without the prompts that repeat an earlier one. */
  function WithoutRepeats(queue: seq<Prompt>): seq<Prompt>
    decreases |queue|
  {
    if queue == [] then []
    else
      WithoutPromptShorter(queue[1..], queue[0]);
      [queue[0]] + WithoutRepeats(WithoutPrompt(queue[1..], queue[0]))
  }

  lemma {:induction false} WithoutPromptShorter(queue: seq<Prompt>, p: Prompt)
    ensures |WithoutPrompt(queue, p)| <= |queue|
    ensures forall other :: other in WithoutPrompt(queue, p) <==> other in queue && !SamePrompt(other, p)
  {
    if queue != [] {
      WithoutPromptShorter(queue[1..], p);
      assert queue == [queue[0]] + queue[1..];
    }
  }

  /** Answering until nothing waits shows the prompts of the queue in order, each unless an earlier one has
      its id, or its turn, and leaves nothing active. */
  lemma {:induction false} AnsweringDrains(s: State)
    requires s.running && Orderly(s) && HasActive(s)
    ensures var t := Answers(s, |WithoutRepeats(s.queue)| + 1);
      t.queue == [] && !HasActive(t) && t.shown == s.shown + WithoutRepeats(s.queue)
    decreases |s.queue|
  {
    var t := Answer(s);
    AnswerShowsNext(s);
    if s.queue == [] {
      assert Answers(s, 1) == Answers(t, 0) && s.shown + [] == s.shown;
    } else {
      AnsweringDrains(t);
      Assoc(s.shown, [s.queue[0]], WithoutRepeats(t.queue));
    }
  }

  lemma AnswerShowsNext(s: State)
    requires s.running && Orderly(s) && HasActive(s)
    ensures s.queue == [] ==> !HasActive(Answer(s)) && Answer(s).queue == [] && Answer(s).shown == s.shown
    ensures s.queue != [] ==> HasActive(Answer(s)) && Answer(s).shown == s.shown + [s.queue[0]]
    ensures s.queue != []
      ==> Answer(s).queue == WithoutPrompt(s.queue[1..], s.queue[0]) && |Answer(s).queue| < |s.queue|
    ensures Answer(s).running && Orderly(Answer(s))
  {
    StepOrderly(s, if s.pending.Some? then Decided else Dismissed);
    AnswerOpens(s);
    if s.queue != [] {
      OpenedFrom(s.(pending := None, request := None, question := None), s.queue[0], s.queue[1..]);
      WithoutPromptShorter(s.queue[1..], s.queue[0]);
    }
  }

  lemma AnswerOpens(s: State)
    requires s.running && Orderly(s) && HasActive(s)
    ensures Answer(s) == OpenNext(s.(pending := None, request := None, question := None))
  {
  }

  lemma OpenedFrom(s: State, p: Prompt, rest: seq<Prompt>)
    requires !HasActive(s) && s.queue == [p] + rest
    ensures var t := OpenNext(s);
      HasActive(t) && t.queue == WithoutPrompt(rest, p) && t.shown == s.shown + [p] && t.running == s.running
  {
    assert s.queue[1..] == rest;
  }

  /** One of these prompts counts as the same. */
  predicate Repeats(front: seq<Prompt>, last: Prompt) { exists p | p in front :: SamePrompt(p, last) }

  /** The prompts of the queue, each unless an earlier one counts as the same. */
  function Firsts(queue: seq<Prompt>): seq<Prompt> {
    if queue == [] then []
    else
      var (front, last) := (queue[..|queue| - 1], queue[|queue| - 1]);
      Firsts(front) + if Repeats(front, last) then [] else [last]
  }

  lemma {:induction false} WithoutPromptSnoc(queue: seq<Prompt>, p: Prompt, last: Prompt)
    ensures WithoutPrompt(queue + [last], p) == WithoutPrompt(queue, p) + if SamePrompt(last, p) then [] else [last]
  {
    if queue == [] {
      assert WithoutPrompt([last], p) == (if SamePrompt(last, p) then [] else [last]) + WithoutPrompt([], p);
    } else {
      assert (queue + [last])[1..] == queue[1..] + [last];
      WithoutPromptSnoc(queue[1..], p, last);
    }
  }

  lemma {:induction false} WithoutRepeatsSnoc(queue: seq<Prompt>, last: Prompt)
    ensures WithoutRepeats(queue + [last]) ==
      WithoutRepeats(queue) + if exists p | p in queue :: SamePrompt(p, last) then [] else [last]
    decreases |queue|
  {
    if queue == [] {
      assert ([] + [last])[1..] == [] && WithoutPrompt([], last) == [] && WithoutRepeats([]) == [];
    } else {
      var first, rest := queue[0], WithoutPrompt(queue[1..], queue[0]);
      assert (queue + [last])[1..] == queue[1..] + [last] && queue == [first] + queue[1..];
      WithoutPromptSnoc(queue[1..], first, last);
      WithoutPromptShorter(queue[1..], first);
      if !SamePrompt(last, first) {
        WithoutRepeatsSnoc(rest, last);
        SameInRest(queue, first, rest, last);
        Assoc([first], WithoutRepeats(rest), if exists p | p in queue :: SamePrompt(p, last) then [] else [last]);
      } else {
        assert first in queue && SamePrompt(first, last);
        assert rest + [] == rest;
      }
    }
  }

  lemma SameInRest(queue: seq<Prompt>, first: Prompt, rest: seq<Prompt>, last: Prompt)
    requires queue != [] && first == queue[0] && rest == WithoutPrompt(queue[1..], first) && !SamePrompt(last, first)
    ensures (exists p | p in queue :: SamePrompt(p, last)) <==> exists p | p in rest :: SamePrompt(p, last)
  {
    assert queue == [first] + queue[1..];
    WithoutPromptShorter(queue[1..], first);
  }

  /** What answering shows is read off the queue from the other end: a prompt is left out exactly if an
      earlier one counts as the same. */
  lemma {:induction false} ShownAreFirsts(queue: seq<Prompt>)
    ensures WithoutRepeats(queue) == Firsts(queue)
  {
    if queue != [] {
      assert queue == queue[..|queue| - 1] + [queue[|queue| - 1]];
      ShownAreFirsts(queue[..|queue| - 1]);
      WithoutRepeatsSnoc(queue[..|queue| - 1], queue[|queue| - 1]);
    }
  }

  /** No two approvals with one id and no two questions of one turn. */
  predicate AllDifferent(queue: seq<Prompt>) {
    forall i, j :: 0 <= i < j < |queue| ==> Differ(queue[i], queue[j])
  }

  predicate Differ(a: Prompt, b: Prompt) {
    && (a.ExecApproval? && b.ExecApproval? ==> a.approval.id != b.approval.id)
    && (a.UserInput? && b.UserInput? ==> a.question.turn != b.question.turn)
  }

  lemma AllDifferentSnoc(front: seq<Prompt>, last: Prompt)
    ensures AllDifferent(front + [last]) <==> AllDifferent(front) && !exists p | p in front :: SamePrompt(p, last)
  {
    var queue := front + [last];
    assert forall i :: 0 <= i < |front| ==> queue[i] == front[i];
    assert forall p, q :: Differ(p, q) <==> !SamePrompt(p, q);
    if p :| p in front && SamePrompt(p, last) {
      var i :| 0 <= i < |front| && front[i] == p;
      assert !Differ(queue[i], queue[|front|]);
    }
    if AllDifferent(queue) {
      forall i, j | 0 <= i < j < |front| ensures Differ(front[i], front[j]) {
        assert Differ(queue[i], queue[j]);
      }
    }
  }

  lemma FirstsSnoc(firsts: seq<Prompt>, here: seq<Prompt>, front: seq<Prompt>, last: Prompt, queue: seq<Prompt>)
    requires |firsts| <= |front| && (|firsts| == |front| ==> firsts == front) && queue == front + [last]
    requires here == [] || here == [last]
    ensures |firsts + here| <= |queue| && (|firsts + here| == |queue| ==> firsts + here == queue)
    ensures firsts + here == queue <==> firsts == front && here == [last]
  {
    if firsts + here == queue {
      assert |firsts| + |here| == |front| + 1;
    }
  }

  lemma {:induction false} FirstsAll(queue: seq<Prompt>)
    ensures |Firsts(queue)| <= |queue| && (|Firsts(queue)| == |queue| ==> Firsts(queue) == queue)
    ensures Firsts(queue) == queue <==> NoneRepeated(queue)
  {
    if queue != [] {
      var front, last := queue[..|queue| - 1], queue[|queue| - 1];
      FirstsAll(front);
      var here := if Repeats(front, last) then [] else [last];
      FirstsSnoc(Firsts(front), here, front, last, queue);
    }
  }

  predicate NoneRepeated(queue: seq<Prompt>) {
    queue == [] ||
      var (front, last) := (queue[..|queue| - 1], queue[|queue| - 1]);
      NoneRepeated(front) && !Repeats(front, last)
  }

  lemma {:induction false} NoneRepeatedIs(queue: seq<Prompt>)
    ensures NoneRepeated(queue) <==> AllDifferent(queue)
  {
    if queue != [] {
      NoneRepeatedIs(queue[..|queue| - 1]);
      AllDifferentSnoc(queue[..|queue| - 1], queue[|queue| - 1]);
      assert queue == queue[..|queue| - 1] + [queue[|queue| - 1]];
    }
  }

  /** Answering shows everything that waits, in order, exactly if no two approvals in the queue have the same
      id and no two questions the same turn. */
  lemma AnsweringShowsAll(s: State)
    requires s.running && Orderly(s) && HasActive(s)
    ensures Answers(s, |WithoutRepeats(s.queue)| + 1).shown == s.shown + s.queue <==> AllDifferent(s.queue)
  {
    AnsweringDrains(s);
    ShownAreFirsts(s.queue);
    FirstsAll(s.queue);
    NoneRepeatedIs(s.queue);
    if s.shown + Firsts(s.queue) == s.shown + s.queue {
      assert |s.shown + Firsts(s.queue)| == |s.shown| + |Firsts(s.queue)|;
    }
  }

  /** Two different questions of one turn that wait together: the second is never shown. */
  lemma SecondQuestionLost(s: State, one: Question, two: Question)
    requires s.running && Orderly(s) && HasActive(s) && s.queue == [UserInput(one), UserInput(two)]
    requires one.turn == two.turn && one.call != two.call
    ensures var t := Answers(s, |WithoutRepeats(s.queue)| + 1);
      t.queue == [] && !HasActive(t) && t.shown == s.shown + [UserInput(one)]
  {
    AnsweringDrains(s);
    var (p, q) := (UserInput(one), UserInput(two));
    assert s.queue[1..] == [q] && [q][1..] == [] && WithoutPrompt([], p) == [] && WithoutRepeats([]) == [];
    assert WithoutPrompt([q], p) == (if SamePrompt(q, p) then [] else [q]) + WithoutPrompt([], p);
    assert WithoutRepeats(s.queue) == [p] + WithoutRepeats(WithoutPrompt([q], p));
  }

  // ---------- the counts of the background ----------

  predicate DistinctIds(list: seq<Approval>) {
    forall i, j :: 0 <= i < j < |list| ==> list[i].id != list[j].id
  }

  predicate DistinctTurns(list: seq<Question>) {
    forall i, j :: 0 <= i < j < |list| ==> list[i].turn != list[j].turn
  }

  /** For this thread no more prompts are announced than are stored. */
  predicate CountsBacked(s: State, thread: string) {
    && DistinctIds(ApprovalsOf(s, thread)) && DistinctTurns(QuestionsOf(s, thread))
    && CountOf(s, thread).approvals <= |ApprovalsOf(s, thread)| && CountOf(s, thread).inputs <= |QuestionsOf(s, thread)|
  }

  /** The prompt is not one of those stored for its thread. */
  predicate Fresh(s: State, e: Event) {
    && (e.BackgroundApproval? ==> forall a | a in ApprovalsOf(s, e.approval.thread) :: a.id != e.approval.id)
    && (e.BackgroundQuestion? ==> forall q | q in QuestionsOf(s, e.question.thread) :: q.turn != e.question.turn)
  }

  predicate AllFresh(s: State, events: seq<Event>)
    decreases |events|
  {
    events == [] || (Fresh(s, events[0]) && AllFresh(Step(s, events[0]), events[1..]))
  }

  lemma {:induction false} WithoutIdDistinct(list: seq<Approval>, id: string)
    requires DistinctIds(list)
    ensures DistinctIds(WithoutId(list, id)) && |WithoutId(list, id)| >= |list| - 1
    ensures forall a :: a in WithoutId(list, id) ==> a in list
    ensures (forall a | a in list :: a.id != id) ==> WithoutId(list, id) == list
  {
    if list != [] {
      WithoutIdDistinct(list[1..], id);
      assert list == [list[0]] + list[1..];
      if list[0].id == id {
        assert forall a | a in list[1..] :: a.id != id;
      } else {
        assert forall a | a in list[1..] :: a.id != list[0].id;
      }
    }
  }

  lemma {:induction false} WithoutTurnDistinct(list: seq<Question>, turn: string)
    requires DistinctTurns(list)
    ensures DistinctTurns(WithoutTurn(list, turn)) && |WithoutTurn(list, turn)| >= |list| - 1
    ensures forall q :: q in WithoutTurn(list, turn) ==> q in list
    ensures (forall q | q in list :: q.turn != turn) ==> WithoutTurn(list, turn) == list
  {
    if list != [] {
      WithoutTurnDistinct(list[1..], turn);
      assert list == [list[0]] + list[1..];
      if list[0].turn == turn {
        assert forall q | q in list[1..] :: q.turn != turn;
      } else {
        assert forall q | q in list[1..] :: q.turn != list[0].turn;
      }
    }
  }

  function IdCount(list: seq<Approval>, id: string): nat {
    if list == [] then 0 else (if list[0].id == id then 1 else 0) + IdCount(list[1..], id)
  }

  function TurnCount(list: seq<Question>, turn: string): nat {
    if list == [] then 0 else (if list[0].turn == turn then 1 else 0) + TurnCount(list[1..], turn)
  }

  lemma {:induction false} WithoutIdLength(list: seq<Approval>, id: string)
    ensures |WithoutId(list, id)| == |list| - IdCount(list, id)
  {
    if list != [] { WithoutIdLength(list[1..], id); }
  }

  lemma {:induction false} WithoutTurnLength(list: seq<Question>, turn: string)
    ensures |WithoutTurn(list, turn)| == |list| - TurnCount(list, turn)
  {
    if list != [] { WithoutTurnLength(list[1..], turn); }
  }

  /** Opening a question while all stored ones are announced: no more stay announced than stored, exactly if
      at most one of those stored is of its turn. */
  lemma OpenQuestionCounts(s: State, q: Question)
    requires !HasActive(s) && CountOf(s, q.thread).inputs == |QuestionsOf(s, q.thread)|
    ensures var t := Open(s, UserInput(q));
      CountOf(t, q.thread).inputs <= |QuestionsOf(t, q.thread)| <==> TurnCount(QuestionsOf(s, q.thread), q.turn) <= 1
  {
    WithoutTurnLength(QuestionsOf(s, q.thread), q.turn);
  }

  /** The same for approvals and their ids. */
  lemma OpenApprovalCounts(s: State, a: Approval)
    requires !HasActive(s) && CountOf(s, a.thread).approvals == |ApprovalsOf(s, a.thread)|
    ensures var t := Open(s, ExecApproval(a));
      CountOf(t, a.thread).approvals <= |ApprovalsOf(t, a.thread)| <==> IdCount(ApprovalsOf(s, a.thread), a.id) <= 1
  {
    WithoutIdLength(ApprovalsOf(s, a.thread), a.id);
  }

  lemma OpenBacked(s: State, p: Prompt, thread: string)
    requires CountsBacked(s, thread)
    ensures CountsBacked(Open(s, p), thread)
  {
    if Thread(p) != thread { OpenElsewhere(s, p, thread); }
    else if p.ExecApproval? { OpenApprovalBacked(s, p.approval); }
    else { OpenQuestionBacked(s, p.question); }
  }

  lemma OpenElsewhere(s: State, p: Prompt, thread: string)
    requires Thread(p) != thread
    ensures var t := Open(s, p);
      CountOf(t, thread) == CountOf(s, thread) && ApprovalsOf(t, thread) == ApprovalsOf(s, thread)
      && QuestionsOf(t, thread) == QuestionsOf(s, thread)
  {
  }

  lemma OpenApprovalBacked(s: State, a: Approval)
    requires CountsBacked(s, a.thread)
    ensures CountsBacked(Open(s, ExecApproval(a)), a.thread)
  {
    WithoutIdDistinct(ApprovalsOf(s, a.thread), a.id);
  }

  lemma OpenQuestionBacked(s: State, q: Question)
    requires CountsBacked(s, q.thread)
    ensures CountsBacked(Open(s, UserInput(q)), q.thread)
  {
    WithoutTurnDistinct(QuestionsOf(s, q.thread), q.turn);
  }

  lemma OpenNextBacked(s: State, thread: string)
    requires CountsBacked(s, thread)
    ensures CountsBacked(OpenNext(s), thread)
  {
    if !HasActive(s) && s.queue != [] { OpenBacked(s.(queue := s.queue[1..]), s.queue[0], thread); }
  }

  lemma ApprovalBacked(s: State, a: Approval, thread: string)
    requires CountsBacked(s, thread) && Fresh(s, BackgroundApproval(a))
    ensures CountsBacked(React(s, BackgroundApproval(a)), thread)
  {
    var t := Stored(s, ExecApproval(a));
    assert CountsBacked(t, thread);
    OpenNextBacked(t.(queue := t.queue + [ExecApproval(a)]), thread);
  }

  lemma QuestionBacked(s: State, q: Question, thread: string)
    requires CountsBacked(s, thread) && Fresh(s, BackgroundQuestion(q))
    ensures CountsBacked(React(s, BackgroundQuestion(q)), thread)
  {
    var t := Stored(s, UserInput(q));
    assert CountsBacked(t, thread);
    OpenNextBacked(t.(queue := t.queue + [UserInput(q)]), thread);
  }

  lemma ForgetBacked(s: State, other: string, thread: string)
    requires CountsBacked(s, thread)
    ensures CountsBacked(Forget(s, other), thread)
  {
  }

  /** Only the counts and what is stored matter. */
  lemma SameBacked(s: State, t: State, thread: string)
    requires CountsBacked(s, thread) && t.counts == s.counts && t.approvals == s.approvals && t.questions == s.questions
    ensures CountsBacked(t, thread)
  {
  }

  lemma FinishedBacked(s: State, other: string, thread: string)
    requires CountsBacked(s, thread)
    ensures CountsBacked(React(s, ForegroundTurnFinished(other)), thread)
  {
    var t := if s.request.Some? && s.request.value.thread == other then s.(pending := None, request := None) else s;
    var u := if t.question.Some? && t.question.value.thread == other then t.(question := None) else t;
    SameBacked(s, u, thread);
    ForgetBacked(u, other, thread);
    OpenNextBacked(Forget(u, other), thread);
  }

  lemma StepBacked(s: State, e: Event, thread: string)
    requires CountsBacked(s, thread) && Fresh(s, e)
    ensures CountsBacked(Step(s, e), thread)
  {
    if !s.running { return; }
    match e
    case BackgroundApproval(a) => ApprovalBacked(s, a, thread);
    case BackgroundQuestion(q) => QuestionBacked(s, q, thread);
    case ForegroundPrompt(p) => OpenNextBacked(s.(queue := s.queue + [p]), thread);
    case Picked(p) => OpenBacked(s, p, thread);
    case ForegroundTurnFinished(other) => FinishedBacked(s, other, thread);
    case Decided => OpenNextBacked(s.(pending := None, request := None), thread);
    case Dismissed => OpenNextBacked(s.(question := None), thread);
    case ThreadSwitched => OpenNextBacked(s.(request := None), thread);
    case _ =>
  }

  /** If no prompt arrives under the id of one still stored for its thread, no thread ever announces more
      prompts than are stored for it. */
  lemma {:induction false} RunBacked(s: State, events: seq<Event>, thread: string)
    requires CountsBacked(s, thread) && AllFresh(s, events)
    ensures CountsBacked(Run(s, events), thread)
    decreases |events|
  {
    if events != [] {
      StepBacked(s, events[0], thread);
      RunBacked(Step(s, events[0]), events[1..], thread);
    }
  }

  // ---------- fresh ids, read off the events ----------

  /** The later event brings a prompt to the same thread under the same id, or of the same turn. */
  predicate Reuses(earlier: Event, later: Event) {
    || (earlier.BackgroundApproval? && later.BackgroundApproval? && earlier.approval.thread == later.approval.thread
        && earlier.approval.id == later.approval.id)
    || (earlier.BackgroundQuestion? && later.BackgroundQuestion? && earlier.question.thread == later.question.thread
        && earlier.question.turn == later.question.turn)
  }

  predicate NeverReused(events: seq<Event>) {
    forall i, j :: 0 <= i < j < |events| ==> !Reuses(events[i], events[j])
  }

  /** What is stored for the thread came with these events. */
  predicate CameWith(s: State, past: seq<Event>, thread: string) {
    && (forall a | a in ApprovalsOf(s, thread) :: a.thread == thread && BackgroundApproval(a) in past)
    && (forall q | q in QuestionsOf(s, thread) :: q.thread == thread && BackgroundQuestion(q) in past)
  }

  /** What is stored for the thread afterwards was stored before. */
  predicate NothingNew(s: State, t: State, thread: string) {
    && (forall a | a in ApprovalsOf(t, thread) :: a in ApprovalsOf(s, thread))
    && (forall q | q in QuestionsOf(t, thread) :: q in QuestionsOf(s, thread))
  }

  lemma {:induction false} WithoutIdFewer(list: seq<Approval>, id: string)
    ensures forall a | a in WithoutId(list, id) :: a in list
  {
    if list != [] { WithoutIdFewer(list[1..], id); }
  }

  lemma {:induction false} WithoutTurnFewer(list: seq<Question>, turn: string)
    ensures forall q | q in WithoutTurn(list, turn) :: q in list
  {
    if list != [] { WithoutTurnFewer(list[1..], turn); }
  }

  lemma OpenStoresNothing(s: State, p: Prompt, thread: string)
    ensures NothingNew(s, Open(s, p), thread)
  {
    match p
    case ExecApproval(a) => WithoutIdFewer(ApprovalsOf(s, a.thread), a.id);
    case UserInput(q) => WithoutTurnFewer(QuestionsOf(s, q.thread), q.turn);
  }

  lemma OpenNextStoresNothing(s: State, thread: string)
    ensures NothingNew(s, OpenNext(s), thread)
  {
    if !HasActive(s) && s.queue != [] { OpenStoresNothing(s.(queue := s.queue[1..]), s.queue[0], thread); }
  }

  lemma StoredCameWith(s: State, p: Prompt, past: seq<Event>, thread: string)
    requires CameWith(s, past, thread)
    ensures var event := if p.ExecApproval? then BackgroundApproval(p.approval) else BackgroundQuestion(p.question);
      CameWith(Stored(s, p), past + [event], thread)
  {
  }

  lemma StillCameWith(s: State, t: State, past: seq<Event>, thread: string)
    requires CameWith(s, past, thread) && NothingNew(s, t, thread)
    ensures CameWith(t, past, thread)
  {
  }

  lemma MorePast(s: State, past: seq<Event>, e: Event, thread: string)
    requires CameWith(s, past, thread)
    ensures CameWith(s, past + [e], thread)
  {
  }

  /** The prompt is opened, or the next one, after the fields that do not matter here have changed. */
  lemma OpenNextCameWith(s: State, past: seq<Event>, thread: string)
    requires CameWith(s, past, thread)
    ensures CameWith(OpenNext(s), past, thread)
  {
    OpenNextStoresNothing(s, thread);
    StillCameWith(s, OpenNext(s), past, thread);
  }

  lemma ForgetCameWith(s: State, other: string, past: seq<Event>, thread: string)
    requires CameWith(s, past, thread)
    ensures CameWith(Forget(s, other), past, thread)
  {
  }

  lemma FinishedCameWith(s: State, other: string, past: seq<Event>, thread: string)
    requires CameWith(s, past, thread)
    ensures CameWith(React(s, ForegroundTurnFinished(other)), past, thread)
  {
    var t := if s.request.Some? && s.request.value.thread == other then s.(pending := None, request := None) else s;
    var u := if t.question.Some? && t.question.value.thread == other then t.(question := None) else t;
    StillCameWith(s, u, past, thread);
    ForgetCameWith(u, other, past, thread);
    OpenNextCameWith(Forget(u, other), past, thread);
  }

  lemma ReactCameWith(s: State, e: Event, past: seq<Event>, thread: string)
    requires CameWith(s, past, thread)
    ensures CameWith(React(s, e), past + [e], thread)
  {
    match e
    case BackgroundApproval(a) =>
      var t := Stored(s, ExecApproval(a));
      StoredCameWith(s, ExecApproval(a), past, thread);
      OpenNextCameWith(t.(queue := t.queue + [ExecApproval(a)]), past + [e], thread);
    case BackgroundQuestion(q) =>
      var t := Stored(s, UserInput(q));
      StoredCameWith(s, UserInput(q), past, thread);
      OpenNextCameWith(t.(queue := t.queue + [UserInput(q)]), past + [e], thread);
    case _ =>
      MorePast(s, past, e, thread);
      OtherCameWith(s, e, past + [e], thread);
  }

  lemma OtherCameWith(s: State, e: Event, past: seq<Event>, thread: string)
    requires CameWith(s, past, thread) && !e.BackgroundApproval? && !e.BackgroundQuestion?
    ensures CameWith(React(s, e), past, thread)
  {
    match e
    case ForegroundPrompt(p) => OpenNextCameWith(s.(queue := s.queue + [p]), past, thread);
    case Picked(p) =>
      OpenStoresNothing(s, p, thread);
      StillCameWith(s, Open(s, p), past, thread);
    case BackgroundTurnFinished(other) => ForgetCameWith(s, other, past, thread);
    case ForegroundTurnFinished(other) => FinishedCameWith(s, other, past, thread);
    case Decided => OpenNextCameWith(s.(pending := None, request := None), past, thread);
    case Dismissed => OpenNextCameWith(s.(question := None), past, thread);
    case ThreadSwitched => OpenNextCameWith(s.(request := None), past, thread);
    case _ =>
  }

  lemma {:induction false} NeverReusedFresh(s: State, past: seq<Event>, events: seq<Event>)
    requires NeverReused(past + events) && forall thread :: CameWith(s, past, thread)
    ensures AllFresh(s, events)
    decreases |events|
  {
    if events != [] {
      var e := events[0];
      assert (past + [e]) + events[1..] == past + events;
      forall earlier | earlier in past ensures !Reuses(earlier, e) {
        var i :| 0 <= i < |past| && past[i] == earlier;
        assert (past + events)[i] == earlier && (past + events)[|past|] == e;
      }
      assert e.BackgroundApproval? ==> CameWith(s, past, e.approval.thread);
      assert e.BackgroundQuestion? ==> CameWith(s, past, e.question.thread);
      forall thread ensures CameWith(Step(s, e), past + [e], thread) { ReactCameWith(s, e, past, thread); }
      NeverReusedFresh(Step(s, e), past + [e], events[1..]);
    }
  }

  /** Seen from the events: if no id and no turn comes twice to a thread in the background, no thread ever
      announces more prompts than are stored for it. */
  lemma NeverReusedBacked(events: seq<Event>, thread: string)
    requires NeverReused(events)
    ensures CountsBacked(Run(INITIAL, events), thread)
  {
    assert [] + events == events;
    NeverReusedFresh(INITIAL, [], events);
    RunBacked(INITIAL, events, thread);
  }

  lemma RunThree(s: State, e1: Event, e2: Event, e3: Event)
    ensures Run(s, [e1, e2, e3]) == Step(Step(Step(s, e1), e2), e3)
  {
    assert [e1, e2, e3][1..] == [e2, e3] && [e2, e3][1..] == [e3] && [e3][1..] == [];
    var t := Step(Step(s, e1), e2);
    assert Run(s, [e1, e2, e3]) == Run(Step(s, e1), [e2, e3]) == Run(t, [e3]) == Run(Step(t, e3), []);
  }

  /** Two questions of one turn break the count: the first shown takes the other's record with it. */
  lemma SameTurnMiscounts(one: Question, two: Question)
    requires one.turn == two.turn && one.thread == two.thread
    ensures var s :=
      Step(Run(INITIAL, [ForegroundPrompt(FRONT), BackgroundQuestion(one), BackgroundQuestion(two)]), Dismissed);
      CountOf(s, one.thread).inputs == 1 && QuestionsOf(s, one.thread) == [] && s.queue == []
  {
    var (p, q) := (UserInput(one), UserInput(two));
    var a := Step(INITIAL, ForegroundPrompt(FRONT));
    assert INITIAL.queue + [FRONT] == [FRONT] && [FRONT][1..] == [];
    assert a == INITIAL.(question := Some(FRONT.question), shown := [FRONT]);
    TwoAsked(a, one, two);
    RunThree(INITIAL, ForegroundPrompt(FRONT), BackgroundQuestion(one), BackgroundQuestion(two));
    assert [p, q][1..] == [q] && WithoutPrompt([q], p) == [];
    assert [one, two][1..] == [two] && WithoutTurn([one, two], one.turn) == WithoutTurn([two], one.turn) == [];
  }

  const FRONT := UserInput(Question("c", "t", "main", "?"))

  lemma TwoAsked(a: State, one: Question, two: Question)
    requires a.running && one.thread == two.thread && a.question.Some? && a.queue == [] && a.counts == map[]
      && a.questions == map[]
    ensures var c := Step(Step(a, BackgroundQuestion(one)), BackgroundQuestion(two));
      && c.running && c.queue == [UserInput(one), UserInput(two)] && c.question == a.question && c.pending == a.pending
      && c.counts == map[one.thread := Counts(0, 2)] && c.questions == map[one.thread := [one, two]]
  {
    var (b, c) := (Step(a, BackgroundQuestion(one)), Step(Step(a, BackgroundQuestion(one)), BackgroundQuestion(two)));
    assert QuestionsOf(a, one.thread) + [one] == [one] && [one] + [two] == [one, two];
    assert b.question == a.question && b.pending == a.pending;
    assert b.queue == [UserInput(one)];
    assert b.counts == map[one.thread := Counts(0, 1)];
    assert b.questions == map[one.thread := [one]];
    assert c.counts == map[one.thread := Counts(0, 2)];
    assert c.questions == map[one.thread := [one, two]];
  }
}
