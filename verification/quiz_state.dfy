/**
 The bookkeeping state of the quiz shooter's single scene: the question bank,
 the counters, the question on screen and the falling answer enemies with
 their floating labels. Rendering, physics and input are not part of it.
 */
module QuizState {

  /** Number of lives a session starts with. */
  const InitialLives: int := 3

  /** Number of correct answers that wins a session. */
  const WinTarget: int := 10

  datatype Option<+T> = None | Some(value: T)

  /** One record of the question data file: the prompt, its answer choices
      in display order and the choice that counts as correct. */
  datatype Question = Question(text: string, choices: seq<string>, answer: string)

  /** A falling enemy, tagged with the answer value it stands for, and the
      text of the label that follows it. */
  datatype Enemy = Enemy(value: string, labelText: string)

  /** Why a session ended; each one queues a full scene restart. */
  datatype EndReason = NoMoreQuestions | Victory | GameOver

  /** Where the scene is between two engine callbacks.
      - Asking: a question is displayed and the 2000 ms timer that spawns its
        choices is pending.
      - Answering: the choices are falling as enemies.
      - Transition: the wave was resolved and the 1000 ms timer that moves
        to the next question is pending.
      - Ending: the session is over and a scene restart is queued. */
  datatype Phase = Asking | Answering | Transition | Ending(reason: EndReason)

  datatype Game = Game(
    lives: int,
    correctAnswers: int,
    totalToWin: int,
    index: nat,
    questions: seq<Question>,
    current: Option<Question>,
    enemies: seq<Enemy>,
    answerTexts: seq<string>,
    phase: Phase
  )

  /** The answer values the enemies are tagged with, in order. */
  function Tags(es: seq<Enemy>): (r: seq<string>)
    ensures |r| == |es|
    ensures forall i :: 0 <= i < |es| ==> r[i] == es[i].value
  {
    if |es| == 0 then [] else [es[0].value] + Tags(es[1..])
  }

  /** Every enemy owns exactly one label, and the label list holds exactly
      those labels in the enemies' order. */
  predicate Paired(g: Game) {
    && |g.enemies| == |g.answerTexts|
    && forall i :: 0 <= i < |g.enemies| ==> g.enemies[i].labelText == g.answerTexts[i]
  }

  /** The counters while a session is being played. */
  predicate InPlay(g: Game) {
    && 1 <= g.lives <= InitialLives
    && 0 <= g.correctAnswers < g.totalToWin
    && g.index < |g.questions|
    && g.current == Some(g.questions[g.index])
  }

  /** 1 when the wave at the current index has been resolved (answered or
      lost) and the index has not yet moved past it, 0 otherwise. */
  function Settled(p: Phase): (r: int)
    ensures 0 <= r <= 1
    ensures r == 1 <==> p == Transition || p == Ending(Victory) || p == Ending(GameOver)
  {
    match p
    case Transition => 1
    case Ending(Victory) => 1
    case Ending(GameOver) => 1
    case _ => 0
  }

  /** Every wave the session has resolved was resolved exactly once, by a
      point or by a lost life. */
  predicate WavesAccounted(g: Game) {
    g.correctAnswers + (InitialLives - g.lives) == g.index + Settled(g.phase)
  }

  /** What holds in every state the scene can reach from a fresh start. */
  predicate Inv(g: Game) {
    && g.totalToWin == WinTarget
    && Paired(g)
    && WavesAccounted(g)
    && match g.phase
       case Asking => InPlay(g) && g.enemies == []
       case Transition => InPlay(g) && g.enemies == []
       case Answering =>
         && InPlay(g)
         && multiset(Tags(g.enemies)) == multiset(g.current.value.choices)
       case Ending(Victory) =>
         && g.correctAnswers == g.totalToWin
         && 1 <= g.lives <= InitialLives
         && g.index < |g.questions|
       case Ending(GameOver) =>
         && g.lives == 0
         && 0 <= g.correctAnswers < g.totalToWin
         && g.index < |g.questions|
       case Ending(NoMoreQuestions) =>
         && 1 <= g.lives <= InitialLives
         && 0 <= g.correctAnswers < g.totalToWin
         && g.index == |g.questions|
  }
}
