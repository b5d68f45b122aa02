/**
 Whole play-throughs: a player who always shoots the right answer, and a
 player who never shoots, over the questions the bank presents in order and
 under any shuffle of each wave's choices.
 */
module QuizScenarios {
  import opened QuizState
  import opened QuizScene
  import opened QuizMachine

  /** The position of `x` in `s`. */
  function IndexOf(s: seq<string>, x: string): (r: nat)
    requires x in s
    ensures r < |s| && s[r] == x
  {
    if s[0] == x then 0 else 1 + IndexOf(s[1..], x)
  }

  predicate Answerable(q: Question) {
    q.answer in q.choices
  }

  /** `qs` are the questions the bank holds from the current index on. */
  predicate Upcoming(g: Game, qs: seq<Question>) {
    g.index + |qs| <= |g.questions| && g.questions[g.index..g.index + |qs|] == qs
  }

  lemma UpcomingRest(g: Game, g1: Game, qs: seq<Question>)
    requires Upcoming(g, qs) && |qs| > 0
    requires g1.questions == g.questions && g1.index == g.index + 1
    ensures Upcoming(g1, qs[1..])
  {

  }

  /** `orders[k]` is a shuffle of the choices of `qs[k]`: one outcome of the
      choice shuffle for each wave. */
  predicate Shuffles(qs: seq<Question>, orders: seq<seq<string>>) {
    && |orders| == |qs|
    && forall k :: 0 <= k < |qs| ==> multiset(orders[k]) == multiset(qs[k].choices)
  }

  /** One wave answered right: the choices appear in the shuffled order
      `order`, the enemy carrying the answer is shot, and the transition
      timer fires. */
  function CorrectRound(q: Question, order: seq<string>): (es: seq<Event>)
    requires Answerable(q) && multiset(order) == multiset(q.choices)
    ensures |es| == 3 && es[0] == SpawnTimerFires(order) && es[2] == TransitionTimerFires
    ensures es[1].Hit? && es[1].enemy < |order| && order[es[1].enemy] == q.answer
  {
    assert q.answer in multiset(order);
    [SpawnTimerFires(order), Hit(IndexOf(order, q.answer)), TransitionTimerFires]
  }

  function CorrectRounds(qs: seq<Question>, orders: seq<seq<string>>): (es: seq<Event>)
    requires forall k :: 0 <= k < |qs| ==> Answerable(qs[k])
    requires Shuffles(qs, orders)
    ensures |es| == 3 * |qs|
  {
    if |qs| == 0 then []
    else
      assert multiset(orders[0]) == multiset(qs[0].choices);
      CorrectRound(qs[0], orders[0]) + CorrectRounds(qs[1..], orders[1..])
  }

  /** One wave left alone: the choices appear in the shuffled order `order`,
      the first of them passes the bottom edge, and the transition timer
      fires. */
  function MissedRound(order: seq<string>): (es: seq<Event>)
    ensures |es| == 3 && es[0] == SpawnTimerFires(order) && es[1] == Miss(0)
    ensures es[2] == TransitionTimerFires
  {
    [SpawnTimerFires(order), Miss(0), TransitionTimerFires]
  }

  function MissedRounds(orders: seq<seq<string>>): (es: seq<Event>)
    ensures |es| == 3 * |orders|
  {
    if |orders| == 0 then [] else MissedRound(orders[0]) + MissedRounds(orders[1..])
  }

  lemma Run3(g: Game, a: Event, b: Event, c: Event)
    ensures Run(g, [a, b, c]) == Step(Step(Step(g, a), b), c)
  {
    assert [a, b, c][0] == a && [a, b, c][1..] == [b, c];
    assert [b, c][0] == b && [b, c][1..] == [c];
    assert [c][0] == c && [c][1..] == [];
    calc {
      Run(g, [a, b, c]);
      Run(Step(g, a), [b, c]);
      Run(Step(Step(g, a), b), [c]);
      Run(Step(Step(Step(g, a), b), c), []);
    }
  }

  /** Spawning the choices in any shuffled order and shooting an enemy that
      carries the answer scores a point, keeps the lives and the index, and
      wins on the tenth point. */
  lemma CorrectHit(g: Game, order: seq<string>, j: nat)
    requires Inv(g) && g.phase == Asking
    requires multiset(order) == multiset(g.current.value.choices)
    requires j < |order| && order[j] == g.current.value.answer
    ensures var r := Step(Step(g, SpawnTimerFires(order)), Hit(j));
      && r.correctAnswers == g.correctAnswers + 1
      && r.lives == g.lives && r.index == g.index && r.questions == g.questions
      && (g.correctAnswers + 1 == WinTarget ==> r.phase == Ending(Victory))
      && (g.correctAnswers + 1 < WinTarget ==> r.phase == Transition)
  {
    var g1 := SpawnAnswers(g, order);
    assert g1.enemies == SpawnEnemies(order);
  }

  /** Spawning the choices in any shuffled order and letting any one of them
      fall costs a life, keeps the score and the index, and ends the game on
      the last life. */
  lemma EnemyMissed(g: Game, order: seq<string>, i: nat)
    requires Inv(g) && g.phase == Asking
    requires multiset(order) == multiset(g.current.value.choices)
    requires i < |order|
    ensures var r := Step(Step(g, SpawnTimerFires(order)), Miss(i));
      && r.correctAnswers == g.correctAnswers
      && r.lives == g.lives - 1 && r.index == g.index && r.questions == g.questions
      && (g.lives == 1 ==> r.phase == Ending(GameOver))
      && (1 < g.lives ==> r.phase == Transition)
  {
    assert Enabled(g, SpawnTimerFires(order));
    var g1 := SpawnAnswers(g, order);
    assert g1 == Step(g, SpawnTimerFires(order));
    assert |g1.enemies| == |order|;
    assert Enabled(g1, Miss(i));
    assert Step(g1, Miss(i)) == LoseLife(g1, Some(i));
  }

  /** The transition timer moves to the next question, or finds none;
      nothing else changes. A session that already ended stays put. */
  lemma NextWave(g: Game)
    requires g.phase == Transition || g.phase.Ending?
    ensures var r := Step(g, TransitionTimerFires);
      && r.correctAnswers == g.correctAnswers && r.lives == g.lives
      && r.questions == g.questions
      && (g.phase.Ending? ==> r == g)
      && (g.phase == Transition && g.index + 1 == |g.questions| ==> r.phase == Ending(NoMoreQuestions))
      && (g.phase == Transition && g.index + 1 < |g.questions| ==>
            r.phase == Asking && r.index == g.index + 1)
  {
  }

  /** One right answer, whatever the shuffle, scores a point and keeps the
      lives; it then wins, runs out of questions, or shows the next one. */
  lemma CorrectRoundScores(g: Game, order: seq<string>)
    requires Inv(g) && g.phase == Asking && Answerable(g.current.value)
    requires multiset(order) == multiset(g.current.value.choices)
    ensures var r := Run(g, CorrectRound(g.current.value, order));
      && Inv(r)
      && r.correctAnswers == g.correctAnswers + 1
      && r.lives == g.lives
      && r.questions == g.questions
      && (g.correctAnswers + 1 == WinTarget ==> r.phase == Ending(Victory))
      && (g.correctAnswers + 1 < WinTarget && g.index + 1 == |g.questions| ==>
            r.phase == Ending(NoMoreQuestions))
      && (g.correctAnswers + 1 < WinTarget && g.index + 1 < |g.questions| ==>
            r.phase == Asking && r.index == g.index + 1)
  {
    var es := CorrectRound(g.current.value, order);
    var j := es[1].enemy;
    CorrectHit(g, order, j);
    var g2 := Step(Step(g, SpawnTimerFires(order)), Hit(j));
    NextWave(g2);
    RunPreservesInv(g, es);
    assert es == [SpawnTimerFires(order), Hit(j), TransitionTimerFires];
    Run3(g, SpawnTimerFires(order), Hit(j), TransitionTimerFires);
  }

  /** One missed wave, whatever the shuffle, costs a life and scores
      nothing; it then ends the game, runs out of questions, or shows the
      next one. */
  lemma MissedRoundCostsLife(g: Game, order: seq<string>)
    requires Inv(g) && g.phase == Asking && |g.current.value.choices| > 0
    requires multiset(order) == multiset(g.current.value.choices)
    ensures var r := Run(g, MissedRound(order));
      && Inv(r)
      && r.correctAnswers == g.correctAnswers
      && r.lives == g.lives - 1
      && r.questions == g.questions
      && (g.lives == 1 ==> r.phase == Ending(GameOver))
      && (1 < g.lives && g.index + 1 == |g.questions| ==> r.phase == Ending(NoMoreQuestions))
      && (1 < g.lives && g.index + 1 < |g.questions| ==> r.phase == Asking && r.index == g.index + 1)
  {
    assert |order| == |multiset(order)| == |multiset(g.current.value.choices)|;
    EnemyMissed(g, order, 0);
    var g2 := Step(Step(g, SpawnTimerFires(order)), Miss(0));
    NextWave(g2);
    RunPreservesInv(g, MissedRound(order));
    Run3(g, SpawnTimerFires(order), Miss(0), TransitionTimerFires);
  }

  lemma ShufflesRest(qs: seq<Question>, orders: seq<seq<string>>)
    requires Shuffles(qs, orders) && |qs| > 0
    ensures Shuffles(qs[1..], orders[1..])
    ensures multiset(orders[0]) == multiset(qs[0].choices)
  {
    forall k | 0 <= k < |qs| - 1
      ensures multiset(orders[1..][k]) == multiset(qs[1..][k].choices)
    {
      assert orders[1..][k] == orders[k + 1] && qs[1..][k] == qs[k + 1];
    }
  }

  /** Answering the upcoming questions right, one after another and under
      any shuffle of each wave's choices: the score grows by one per
      question and the lives stay; the session is won on the tenth point,
      and ends for lack of questions when the bank runs out first. */
  lemma {:induction false} PerfectPlay(g: Game, qs: seq<Question>, orders: seq<seq<string>>)
    requires Inv(g) && g.phase == Asking
    requires Upcoming(g, qs)
    requires forall k :: 0 <= k < |qs| ==> Answerable(qs[k])
    requires Shuffles(qs, orders)
    requires g.correctAnswers + |qs| <= WinTarget
    ensures var r := Run(g, CorrectRounds(qs, orders));
      && Inv(r)
      && r.correctAnswers == g.correctAnswers + |qs|
      && r.lives == g.lives
      && r.questions == g.questions
      && (g.correctAnswers + |qs| == WinTarget ==> r.phase == Ending(Victory))
      && (g.correctAnswers + |qs| < WinTarget && g.index + |qs| == |g.questions| ==>
            r.phase == Ending(NoMoreQuestions))
      && (g.correctAnswers + |qs| < WinTarget && g.index + |qs| < |g.questions| ==>
            r.phase == Asking && r.index == g.index + |qs|)
    decreases |qs|
  {
    if |qs| > 0 {
      assert g.current.value == g.questions[g.index] == qs[0];
      ShufflesRest(qs, orders);
      CorrectRoundScores(g, orders[0]);
      var g1 := Run(g, CorrectRound(qs[0], orders[0]));
      assert CorrectRounds(qs, orders) == CorrectRound(qs[0], orders[0]) + CorrectRounds(qs[1..], orders[1..]);
      RunAppend(g, CorrectRound(qs[0], orders[0]), CorrectRounds(qs[1..], orders[1..]));
      if g1.phase == Asking {
        UpcomingRest(g, g1, qs);
        PerfectPlay(g1, qs[1..], orders[1..]);
      } else {
        assert |qs| == 1;
        assert CorrectRounds(qs[1..], orders[1..]) == [];
      }
    }
  }

  /** Letting every upcoming wave fall, under any shuffle of each wave's
      choices: each costs a life and the score stays; the game is over
      after as many waves as there were lives. */
  lemma {:induction false} NeverShooting(g: Game, qs: seq<Question>, orders: seq<seq<string>>)
    requires Inv(g) && g.phase == Asking
    requires Upcoming(g, qs)
    requires forall k :: 0 <= k < |qs| ==> |qs[k].choices| > 0
    requires Shuffles(qs, orders)
    requires |qs| <= g.lives
    ensures var r := Run(g, MissedRounds(orders));
      && Inv(r)
      && r.correctAnswers == g.correctAnswers
      && r.lives == g.lives - |qs|
      && r.questions == g.questions
      && (|qs| == g.lives ==> r.phase == Ending(GameOver))
      && (|qs| < g.lives && g.index + |qs| < |g.questions| ==>
            r.phase == Asking && r.index == g.index + |qs|)
    decreases |qs|
  {
    if |qs| > 0 {
      assert g.current.value == g.questions[g.index] == qs[0];
      ShufflesRest(qs, orders);
      MissedRoundCostsLife(g, orders[0]);
      var g1 := Run(g, MissedRound(orders[0]));
      assert MissedRounds(orders) == MissedRound(orders[0]) + MissedRounds(orders[1..]);
      RunAppend(g, MissedRound(orders[0]), MissedRounds(orders[1..]));
      if g1.phase == Asking {
        UpcomingRest(g, g1, qs);
        NeverShooting(g1, qs[1..], orders[1..]);
      } else if g1.phase == Ending(GameOver) {
        assert |qs| == 1;
        assert MissedRounds(orders[1..]) == [];
      } else {
        assert g1.phase == Ending(NoMoreQuestions);
        EndingWaitsForRestart(g1, MissedRounds(orders[1..]));
        assert g1.index == |g1.questions|;
      }
    }
  }

  lemma FreshStart(bank: seq<Question>, order: seq<Question>, n: nat)
    requires multiset(order) == multiset(bank) && 0 < n <= |order|
    ensures var g := Create(bank, order);
      && Inv(g) && g.phase == Asking && g.questions == order && g.index == 0
      && g.lives == InitialLives && g.correctAnswers == 0
      && Upcoming(g, order[..n])
  {
  }

  /** A fresh session whose first ten questions are answered right, under
      any shuffle of each wave's choices, is won on the tenth hit with every
      life left, and the restart that follows starts over at 3 lives, no
      points and the first question. */
  lemma TenRightAnswersWin(bank: seq<Question>, order: seq<Question>,
                           orders: seq<seq<string>>, reshuffled: seq<Question>)
    requires multiset(order) == multiset(bank) && multiset(reshuffled) == multiset(bank)
    requires WinTarget <= |order|
    requires forall k :: 0 <= k < WinTarget ==> Answerable(order[k])
    requires Shuffles(order[..WinTarget], orders)
    ensures var r := Run(Create(bank, order), CorrectRounds(order[..WinTarget], orders));
      && r.phase == Ending(Victory)
      && r.correctAnswers == WinTarget && r.lives == InitialLives
      && var s := Step(r, Restart(reshuffled));
      && s.lives == InitialLives && s.correctAnswers == 0 && s.index == 0
  {
    FreshStart(bank, order, WinTarget);
    PerfectPlay(Create(bank, order), order[..WinTarget], orders);
    var r := Run(Create(bank, order), CorrectRounds(order[..WinTarget], orders));
    assert r.questions == order;
    assert Enabled(r, Restart(reshuffled));
  }

  /** A fresh session in which the player never shoots is over, under any
      shuffle of each wave's choices, when the third wave reaches the bottom
      edge, with no points. */
  lemma ThreeMissesLose(bank: seq<Question>, order: seq<Question>, orders: seq<seq<string>>)
    requires multiset(order) == multiset(bank)
    requires InitialLives <= |order|
    requires forall k :: 0 <= k < InitialLives ==> |order[k].choices| > 0
    requires Shuffles(order[..InitialLives], orders)
    ensures var r := Run(Create(bank, order), MissedRounds(orders));
      && r.phase == Ending(GameOver)
      && r.correctAnswers == 0 && r.lives == 0
  {
    FreshStart(bank, order, InitialLives);
    NeverShooting(Create(bank, order), order[..InitialLives], orders);
  }

  /** With fewer questions than the win target, answering all of them right,
      under any shuffle of each wave's choices, ends the session for lack of
      questions, with every life left and one point per question. */
  lemma SmallBankRunsOut(bank: seq<Question>, order: seq<Question>, orders: seq<seq<string>>)
    requires multiset(order) == multiset(bank)
    requires 0 < |order| < WinTarget
    requires forall k :: 0 <= k < |order| ==> Answerable(order[k])
    requires Shuffles(order, orders)
    ensures var r := Run(Create(bank, order), CorrectRounds(order, orders));
      && r.phase == Ending(NoMoreQuestions)
      && r.correctAnswers == |order| && r.lives == InitialLives
  {
    FreshStart(bank, order, |order|);
    assert order[..|order|] == order;
    PerfectPlay(Create(bank, order), order, orders);
  }
}
