/**
 The scene as a state machine driven by the engine's callbacks. Each event
 is one callback the engine can deliver: a timer firing, a projectile
 overlapping an enemy, an enemy passing the bottom edge in the per-frame
 update, or the queued scene restart running `create` again.
 */
module QuizMachine {
  import opened QuizState
  import opened QuizScene

  datatype Event =
    // The 2000 ms timer of showQuestion; `shuffled` is the choices' shuffle.
    | SpawnTimerFires(shuffled: seq<string>)
    // A projectile overlaps enemy number `enemy`.
    | Hit(enemy: nat)
    // Enemy number `enemy` passed the bottom edge.
    | Miss(enemy: nat)
    // The 1000 ms timer of waveTransition.
    | TransitionTimerFires
    // The queued restart; `reshuffled` is the new shuffle of the bank.
    | Restart(reshuffled: seq<Question>)

  /** Whether the engine can deliver `e` in state `g`: a timer only while it
      is pending, collisions and misses only with an enemy on screen, the
      restart only once it was queued, and shuffles are permutations. */
  predicate Enabled(g: Game, e: Event) {
    match e
    case SpawnTimerFires(order) =>
      g.phase == Asking && g.current.Some? && multiset(order) == multiset(g.current.value.choices)
    case Hit(i) => g.phase == Answering && g.current.Some? && i < |g.enemies|
    case Miss(i) => g.phase == Answering && i < |g.enemies|
    case TransitionTimerFires => g.phase == Transition
    case Restart(order) => g.phase.Ending? && multiset(order) == multiset(g.questions)
  }

  /** The scene's reaction to one event; an event that cannot occur in `g`
      leaves it as it is. */
  function Step(g: Game, e: Event): (r: Game)
    ensures !Enabled(g, e) ==> r == g
    ensures g.phase.Ending? && !e.Restart? ==> r == g
    ensures Enabled(g, e) && e.Restart? ==>
              && r.lives == InitialLives && r.correctAnswers == 0
              && r.totalToWin == WinTarget && r.index == 0
              && multiset(r.questions) == multiset(g.questions)
  {
    if !Enabled(g, e) then g
    else match e
      case SpawnTimerFires(order) => SpawnAnswers(g, order)
      case Hit(i) => CheckAnswer(g, i)
      case Miss(i) => LoseLife(g, Some(i))
      case TransitionTimerFires => AdvanceQuestion(g)
      case Restart(order) => Create(g.questions, order)
  }

  /** The state after the engine delivers `es` in order. */
  function Run(g: Game, es: seq<Event>): (r: Game)
    ensures |es| == 0 ==> r == g
    ensures |es| > 0 && !Enabled(g, es[0]) ==> r == Run(g, es[1..])
    decreases |es|
  {
    if |es| == 0 then g else Run(Step(g, es[0]), es[1..])
  }

  lemma {:induction false} RunAppend(g: Game, a: seq<Event>, b: seq<Event>)
    ensures Run(g, a + b) == Run(Run(g, a), b)
    decreases |a|
  {
    if |a| == 0 {
      assert a + b == b;
    } else {
      assert (a + b)[0] == a[0];
      assert (a + b)[1..] == a[1..] + b;
      RunAppend(Step(g, a[0]), a[1..], b);
    }
  }

  /** The enemies on screen while answering are the current question's
      choices, one each, so every tag is a choice. */
  lemma TagIsChoice(g: Game, i: nat)
    requires Inv(g) && g.phase == Answering && i < |g.enemies|
    ensures g.enemies[i].value in g.current.value.choices
  {
    var tags := Tags(g.enemies);
    assert tags[i] in multiset(tags);
  }

  /** Every event keeps the invariant. */
  lemma StepPreservesInv(g: Game, e: Event)
    requires Inv(g)
    ensures Inv(Step(g, e))
  {

  }

  /** Every run keeps the invariant. */
  lemma {:induction false} RunPreservesInv(g: Game, es: seq<Event>)
    requires Inv(g)
    ensures Inv(Run(g, es))
    decreases |es|
  {
    if |es| > 0 {
      StepPreservesInv(g, es[0]);
      RunPreservesInv(Step(g, es[0]), es[1..]);
    }
  }

  /** Every state reachable from the start of the game satisfies the
      invariant and still holds a reshuffle of the bank. */
  lemma Reachable(bank: seq<Question>, order: seq<Question>, es: seq<Event>)
    requires multiset(order) == multiset(bank)
    ensures Inv(Run(Create(bank, order), es))
    ensures |Run(Create(bank, order), es).questions| == |bank|
  {
    var start := Create(bank, order);
    RunPreservesInv(start, es);
    RunKeepsBankSize(start, es);
    SameSize(Run(start, es).questions, bank);
  }

  lemma SameSize(a: seq<Question>, b: seq<Question>)
    requires multiset(a) == multiset(b)
    ensures |a| == |b|
  {
    assert |a| == |multiset(a)|;
  }

  /** While a session is played from the start of the game, the lives stay
      within 1..3, the score within 0..9 and the index within the bank. */
  lemma ReachableInPlay(bank: seq<Question>, order: seq<Question>, es: seq<Event>)
    requires multiset(order) == multiset(bank)
    requires !Run(Create(bank, order), es).phase.Ending?
    ensures 1 <= Run(Create(bank, order), es).lives <= InitialLives
    ensures 0 <= Run(Create(bank, order), es).correctAnswers < WinTarget
    ensures Run(Create(bank, order), es).index < |bank|
  {
    Reachable(bank, order, es);
    PlayBounds(Run(Create(bank, order), es));
  }

  lemma PlayBounds(g: Game)
    requires Inv(g) && !g.phase.Ending?
    ensures 1 <= g.lives <= InitialLives
    ensures 0 <= g.correctAnswers < WinTarget
    ensures g.index < |g.questions|
  {
  }

  /** Restarts reshuffle the bank and nothing else touches it. */
  lemma {:induction false} RunKeepsBankSize(g: Game, es: seq<Event>)
    ensures multiset(Run(g, es).questions) == multiset(g.questions)
    decreases |es|
  {
    if |es| > 0 {
      RunKeepsBankSize(Step(g, es[0]), es[1..]);
    }
  }

  /** Apart from a restart, no event lowers the score, raises the lives or
      moves the index backwards, and each changes the score or the lives by
      at most one. */
  lemma StepMonotone(g: Game, e: Event)
    requires !e.Restart?
    ensures var r := Step(g, e);
      && g.correctAnswers <= r.correctAnswers <= g.correctAnswers + 1
      && g.lives - 1 <= r.lives <= g.lives
      && (r.correctAnswers == g.correctAnswers || r.lives == g.lives)
      && g.index <= r.index <= g.index + 1
  {
  }

  /** Without a restart, the score never decreases and the lives never
      increase. */
  lemma {:induction false} RunMonotone(g: Game, es: seq<Event>)
    requires forall k :: 0 <= k < |es| ==> !es[k].Restart?
    ensures g.correctAnswers <= Run(g, es).correctAnswers
    ensures Run(g, es).lives <= g.lives
    ensures g.index <= Run(g, es).index
    decreases |es|
  {
    if |es| > 0 {
      StepMonotone(g, es[0]);
      RunMonotone(Step(g, es[0]), es[1..]);
    }
  }

  /** Once the session ended, only the restart changes the state. */
  lemma {:induction false} EndingWaitsForRestart(g: Game, es: seq<Event>)
    requires g.phase.Ending?
    requires forall k :: 0 <= k < |es| ==> !es[k].Restart?
    ensures Run(g, es) == g
    decreases |es|
  {
    if |es| > 0 {
      EndingWaitsForRestart(Step(g, es[0]), es[1..]);
    }
  }

  /** A won session saw at least as many questions as the win target:
      with a smaller bank the session cannot be won. */
  lemma VictoryNeedsEnoughQuestions(bank: seq<Question>, order: seq<Question>, es: seq<Event>)
    requires multiset(order) == multiset(bank)
    requires Run(Create(bank, order), es).phase == Ending(Victory)
    ensures WinTarget <= |bank|
  {
    Reachable(bank, order, es);
    VictoryBound(Run(Create(bank, order), es));
  }

  lemma VictoryBound(g: Game)
    requires Inv(g) && g.phase == Ending(Victory)
    ensures WinTarget + (InitialLives - g.lives) <= |g.questions|
    ensures WinTarget <= |g.questions|
  {
  }

  /** With an empty bank no session is ever played: every restart ends at
      once with no more questions. */
  lemma EmptyBankNeverPlays(bank: seq<Question>, order: seq<Question>, es: seq<Event>)
    requires multiset(order) == multiset(bank) && |bank| == 0
    ensures Run(Create(bank, order), es).phase == Ending(NoMoreQuestions)
  {
    Reachable(bank, order, es);
    EmptyBankEnds(Run(Create(bank, order), es));
  }

  lemma EmptyBankEnds(g: Game)
    requires Inv(g) && |g.questions| == 0
    ensures g.phase == Ending(NoMoreQuestions)
  {
  }

  /** A hit scores exactly when the current question's answer is among its
      choices and the hit enemy carries it; a question whose answer is not a
      choice can never be answered correctly. */
  lemma HitScoresIffAnswer(g: Game, i: nat)
    requires Inv(g) && g.phase == Answering && i < |g.enemies|
    ensures (Step(g, Hit(i)).correctAnswers == g.correctAnswers + 1)
              <==> (g.enemies[i].value == g.current.value.answer)
    ensures g.current.value.answer !in g.current.value.choices ==>
              Step(g, Hit(i)).correctAnswers == g.correctAnswers
  {
    TagIsChoice(g, i);
  }

  /** While answering, some enemy can be hit for a point exactly when the
      answer is one of the choices. */
  lemma AnswerableIffScoringHit(g: Game)
    requires Inv(g) && g.phase == Answering
    ensures (exists i: nat :: i < |g.enemies| && Step(g, Hit(i)).correctAnswers == g.correctAnswers + 1)
              <==> g.current.value.answer in g.current.value.choices
  {
    var q := g.current.value;
    var tags := Tags(g.enemies);
    if q.answer in q.choices {
      assert q.answer in multiset(tags);
      var i :| 0 <= i < |tags| && tags[i] == q.answer;
      HitScoresIffAnswer(g, i);
    } else {
      forall i: nat | i < |g.enemies|
        ensures Step(g, Hit(i)).correctAnswers != g.correctAnswers + 1
      {
        HitScoresIffAnswer(g, i);
      }
    }
  }
}
