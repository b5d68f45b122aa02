/**
 The state-changing methods of the quiz scene (create, showQuestion,
 spawnAnswers, checkAnswer, loseLife, waveTransition and the delayed
 callback of waveTransition) as pure functions on the game record. Each
 scene method that ends with `this.scene.restart()` yields a state in the
 Ending phase; the restart itself is `Create`.
 */
module QuizScene {
  import opened QuizState

  /** Everything but the screen contents and the phase is left alone. */
  predicate SameCounters(a: Game, b: Game) {
    && a.lives == b.lives
    && a.correctAnswers == b.correctAnswers
    && a.totalToWin == b.totalToWin
    && a.index == b.index
    && a.questions == b.questions
  }

  /** `s` without its element at `i`; `s` itself when there is none. */
  function RemoveAt<T>(s: seq<T>, i: nat): (r: seq<T>)
    ensures i < |s| ==> |r| == |s| - 1
    ensures i < |s| ==> forall k :: 0 <= k < i ==> r[k] == s[k]
    ensures i < |s| ==> forall k :: i <= k < |r| ==> r[k] == s[k + 1]
    ensures |s| <= i ==> r == s
  {
    if i < |s| then s[..i] + s[i + 1..] else s
  }

  /** A fresh session over the bank in the shuffled order `order`: the
      counters start over and the first question is shown. */
  function Create(bank: seq<Question>, order: seq<Question>): (r: Game)
    requires multiset(order) == multiset(bank)
    ensures r.lives == InitialLives && r.correctAnswers == 0
    ensures r.totalToWin == WinTarget && r.index == 0
    ensures r.questions == order
    ensures multiset(r.questions) == multiset(bank)
    ensures r.enemies == [] && r.answerTexts == []
    ensures r.phase == Ending(NoMoreQuestions) <==> |bank| == 0
    ensures |bank| > 0 ==> r.phase == Asking && r.current == Some(order[0])
    ensures Inv(r)
  {
    assert |order| == |multiset(order)| == |bank|;
    ShowQuestion(Game(InitialLives, 0, WinTarget, 0, order, None, [], [], Asking))
  }

  /** Clears the screen, then either ends the session because the index ran
      past the bank or displays the question at the index and starts the
      timer that spawns its choices. */
  function ShowQuestion(g: Game): (r: Game)
    ensures SameCounters(r, g)
    ensures r.enemies == [] && r.answerTexts == []
    ensures r.phase == Ending(NoMoreQuestions) <==> |g.questions| <= g.index
    ensures g.index < |g.questions| ==>
              r.phase == Asking && r.current == Some(g.questions[g.index])
  {
    var cleared := g.(enemies := [], answerTexts := []);
    if g.index >= |g.questions| then
      cleared.(phase := Ending(NoMoreQuestions))
    else
      cleared.(current := Some(g.questions[g.index]), phase := Asking)
  }

  /** One enemy per choice, in the order given, tagged with the choice and
      carrying a label that shows it. */
  function SpawnEnemies(order: seq<string>): (r: seq<Enemy>)
    ensures |r| == |order|
    ensures forall i :: 0 <= i < |order| ==> r[i].value == order[i] && r[i].labelText == order[i]
  {
    if |order| == 0 then [] else [Enemy(order[0], order[0])] + SpawnEnemies(order[1..])
  }

  /** The delayed callback of `ShowQuestion`: the current question's choices,
      shuffled into `order`, are added to the screen as tagged enemies with
      their labels. */
  function SpawnAnswers(g: Game, order: seq<string>): (r: Game)
    requires g.current.Some?
    requires multiset(order) == multiset(g.current.value.choices)
    ensures SameCounters(r, g) && r.current == g.current
    ensures r.phase == Answering
    ensures |r.enemies| == |g.enemies| + |g.current.value.choices|
    ensures r.enemies[..|g.enemies|] == g.enemies
    ensures multiset(Tags(r.enemies[|g.enemies|..])) == multiset(g.current.value.choices)
    ensures forall i :: |g.enemies| <= i < |r.enemies| ==> r.enemies[i].labelText == r.enemies[i].value
    ensures Paired(g) ==> Paired(r)
  {
    var spawned := SpawnEnemies(order);
    assert |order| == |multiset(order)|;
    assert Tags(spawned) == order;
    var r := g.(enemies := g.enemies + spawned, answerTexts := g.answerTexts + order,
                phase := Answering);
    assert r.enemies[|g.enemies|..] == spawned;
    r
  }

  /** Clears the screen and starts the timer that moves to the next
      question. */
  function WaveTransition(g: Game): (r: Game)
    ensures SameCounters(r, g) && r.current == g.current
    ensures r.enemies == [] && r.answerTexts == []
    ensures r.phase == Transition
  {
    g.(enemies := [], answerTexts := [], phase := Transition)
  }

  /** The delayed callback of `WaveTransition`: the next question. */
  function AdvanceQuestion(g: Game): (r: Game)
    ensures r.index == g.index + 1
    ensures r.lives == g.lives && r.correctAnswers == g.correctAnswers
    ensures r.totalToWin == g.totalToWin && r.questions == g.questions
    ensures r.enemies == [] && r.answerTexts == []
    ensures r.phase == Ending(NoMoreQuestions) <==> |g.questions| <= g.index + 1
    ensures g.index + 1 < |g.questions| ==>
              r.phase == Asking && r.current == Some(g.questions[g.index + 1])
  {
    ShowQuestion(g.(index := g.index + 1))
  }

  /** Costs a life: removes the given enemy, if any, with its label; then
      either ends the session when no life is left or moves on to the next
      wave. */
  function LoseLife(g: Game, enemy: Option<nat>): (r: Game)
    requires enemy.Some? ==> enemy.value < |g.enemies|
    ensures r.lives == g.lives - 1
    ensures r.correctAnswers == g.correctAnswers && r.index == g.index
    ensures r.totalToWin == g.totalToWin && r.questions == g.questions
    ensures r.current == g.current
    ensures r.phase == Ending(GameOver) <==> g.lives - 1 <= 0
    ensures 0 < g.lives - 1 ==> r.phase == Transition && r.enemies == [] && r.answerTexts == []
    ensures g.lives - 1 <= 0 && enemy.Some? ==>
              r.enemies == RemoveAt(g.enemies, enemy.value) &&
              r.answerTexts == RemoveAt(g.answerTexts, enemy.value)
    ensures g.lives - 1 <= 0 && enemy.None? ==>
              r.enemies == g.enemies && r.answerTexts == g.answerTexts
    ensures Paired(g) ==> Paired(r)
  {
    var s := match enemy
      case Some(i) => g.(enemies := RemoveAt(g.enemies, i), answerTexts := RemoveAt(g.answerTexts, i))
      case None => g;
    var s' := s.(lives := s.lives - 1);
    if s'.lives <= 0 then s'.(phase := Ending(GameOver)) else WaveTransition(s')
  }

  /** A projectile hit enemy `i`: its tag is compared with the current
      question's answer by plain value equality (JavaScript's `===` on two
      strings). A match scores, then wins or moves on; a mismatch costs a
      life. */
  function CheckAnswer(g: Game, i: nat): (r: Game)
    requires g.current.Some? && i < |g.enemies|
    ensures r.index == g.index && r.questions == g.questions
    ensures r.totalToWin == g.totalToWin && r.current == g.current
    ensures g.enemies[i].value == g.current.value.answer ==>
              && r.correctAnswers == g.correctAnswers + 1
              && r.lives == g.lives
              && (r.phase == Ending(Victory) <==> g.totalToWin <= g.correctAnswers + 1)
              && (g.correctAnswers + 1 < g.totalToWin ==> r.phase == Transition && r.enemies == [])
    ensures g.enemies[i].value != g.current.value.answer ==>
              && r.correctAnswers == g.correctAnswers
              && r.lives == g.lives - 1
              && r == LoseLife(g, Some(i))
    ensures Paired(g) ==> Paired(r)
  {
    if g.enemies[i].value == g.current.value.answer then
      var s := g.(correctAnswers := g.correctAnswers + 1);
      if s.correctAnswers >= s.totalToWin then s.(phase := Ending(Victory)) else WaveTransition(s)
    else
      LoseLife(g, Some(i))
  }
}
