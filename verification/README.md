# Quiz shooter: the bookkeeping of `MainScene`

The game shows a trivia question. Two seconds later its answer choices fall
from the top of the screen as enemies, each tagged with its choice and
followed by a text label. The player shoots one:

- the right one scores a point;
- a wrong one, or an enemy reaching the bottom edge, costs a life.

Ten points win the session. Losing all three lives, or running out of
questions, ends it. Every ending restarts the scene, and `create()` resets
the counters. Between two waves a one-second timer moves to the next
question.

This project models that bookkeeping as a pure state machine:

- `QuizState` (`quiz_state.dfy`) holds the game record, with the lives,
  score, win target, question index, question bank, current question,
  enemies and labels. It also holds the scene's phase and the invariant
  `Inv`.
- `QuizScene` (`quiz_scene.dfy`) has one function per scene method:
  `create`, `showQuestion`, `spawnAnswers`, `checkAnswer`, `loseLife`,
  `waveTransition`, and the delayed callback of `waveTransition`.
- `QuizMachine` (`quiz_machine.dfy`) holds the events the engine delivers.
  These are the spawn timer, a projectile hitting enemy `i`, enemy `i`
  passing the bottom edge (the `y > 580` test of `update`), the transition
  timer, and the queued restart. It also holds `Step`, `Run` and the
  invariant and monotonicity lemmas.
- `QuizScenarios` (`quiz_scenarios.dfy`) holds whole play-throughs:
  - ten right answers win, and the restart resets;
  - three missed waves lose;
  - a bank smaller than ten runs out.

Modelling decisions:

- Timers are events. The phase records which timer is pending:
  - `Asking`: the spawn timer is pending;
  - `Transition`: the next-question timer is pending;
  - `Ending(reason)`: `scene.restart()` has been queued.

  An event that cannot occur in a phase leaves the state unchanged.
- The two shuffles (`Phaser.Utils.Array.Shuffle`) are parameters of the
  events that trigger them. Such an event is enabled only when its
  parameter is a permutation of what is shuffled.
- `checkAnswer` compares with `===`. Tags and answers are both strings from
  the data file, so the model uses value equality on strings.
- `showQuestion` ends the session when `currentQuestionIndex >=
  questions.length` (main.js:77), and the model follows that test. It is
  what makes the index equal the bank size exactly when the questions run
  out.

## Model

| member | source | states |
|---|---|---|
| QuizScene.Create | main.js:18-66 | A (re)start has 3 lives, no points, target 10 and index 0, and plays the bank in the given shuffle, which is a permutation of the bank. An empty bank ends at once with no more questions. Otherwise the first question of the shuffle is shown and the invariant holds. |
| QuizScene.ShowQuestion | main.js:70-97 | Enemies and labels are always cleared first. The session ends with no more questions exactly when the index is at or past the bank's length. Otherwise the current question becomes `questions[index]` and the spawn timer is pending. No counter changes. |
| QuizScene.SpawnEnemies | main.js:111-135 | One enemy per choice, in shuffled order. Each is tagged with its choice and labelled with it. |
| QuizScene.SpawnAnswers | main.js:100-140 | Exactly one new enemy per choice. The earlier enemies are kept. The new tags form a permutation of the question's choices, and every label shows its enemy's tag. Enemy/label pairing is preserved. Counters are unchanged. |
| QuizScene.CheckAnswer | main.js:182-202 | A hit whose tag equals the current answer adds exactly 1 point and keeps the lives and index. It wins exactly when the score reaches the target, and otherwise starts a wave transition with the screen cleared. A non-matching hit keeps the score, costs exactly one life and is `LoseLife` on that enemy. |
| QuizScene.LoseLife | main.js:205-224 | Lives drop by exactly 1 and score and index stay. The game is over exactly when lives reach 0 or below, and the hit enemy and its label are removed. Otherwise a wave transition starts with the screen cleared. Pairing is preserved. |
| QuizScene.WaveTransition | main.js:227-233 | All enemies and labels are gone, the next-question timer is pending, and no counter changes. |
| QuizScene.AdvanceQuestion | main.js:235-238 | The timer callback advances the index by exactly 1 and then shows a question. The session ends with no more questions exactly when the new index reaches the bank's length. Otherwise the question at the new index is current. |
| QuizMachine.Step | main.js:18-49 | Events that cannot occur leave the state unchanged, and after a session ends only the restart acts. A restart resets to 3 lives, no points, target 10 and index 0 over a reshuffle of the same bank. |
| QuizMachine.StepPreservesInv | main.js:182-238 | Every event keeps the invariant. In play: lives are 1..3, score 0..9, the index is within the bank and the current question is the one at the index. Enemies and labels stay paired. While answering, the tags are a permutation of the current choices. Score plus lives lost counts the resolved waves. |
| QuizMachine.RunPreservesInv | main.js:182-238 | Any sequence of events keeps the invariant. |
| QuizMachine.Reachable | main.js:18-66 | Every state reachable from the start of the game satisfies the invariant and holds a bank of the original size. |
| QuizMachine.ReachableInPlay | main.js:20-22 | While a session is being played, lives stay in 1..3, the score in 0..9 and the index inside the bank. |
| QuizMachine.RunKeepsBankSize | main.js:45-46 | Over any run the bank is only ever reshuffled. |
| QuizMachine.StepMonotone | main.js:186-187 | Apart from a restart, one event raises the score by at most 1 or lowers the lives by at most 1, never both. It never lowers the score, raises the lives or moves the index back. |
| QuizMachine.RunMonotone | main.js:212 | Without a restart, the score never decreases, the lives never increase and the index never goes back. |
| QuizMachine.EndingWaitsForRestart | main.js:191-195 | Once a session has ended, no event other than the restart changes the state. |
| QuizMachine.VictoryNeedsEnoughQuestions | main.js:77-81 | A session can be won only if the bank holds at least 10 questions. |
| QuizMachine.EmptyBankNeverPlays | main.js:77-81 | With an empty bank, every reachable state is the no-more-questions ending, so the scene just keeps restarting. |
| QuizMachine.TagIsChoice | main.js:117 | While answering, every enemy's tag is one of the current question's choices. |
| QuizMachine.HitScoresIffAnswer | main.js:186 | A hit scores exactly when the hit enemy's tag equals the answer. If the answer is not among the choices, no hit ever scores. |
| QuizMachine.AnswerableIffScoringHit | main.js:186-188 | While answering, some enemy can be hit for a point exactly when the answer is among the choices. |
| QuizScenarios.CorrectHit | main.js:186-198 | Spawning the choices in any shuffled order and shooting any enemy tagged with the answer scores a point and keeps lives and index. It wins on the tenth point and otherwise starts a transition. |
| QuizScenarios.EnemyMissed | main.js:168-169 | Spawning the choices in any shuffled order and letting any one enemy fall costs a life and keeps the score and index. It is game over on the last life and otherwise starts a transition. |
| QuizScenarios.NextWave | main.js:235-238 | The transition timer shows the next question, or finds none at the end of the bank. An ended session is unchanged. |
| QuizScenarios.CorrectRoundScores | main.js:182-198 | One wave answered right, under any shuffle of its choices, adds a point and keeps the lives. It then wins, runs out of questions, or shows the next question. |
| QuizScenarios.MissedRoundCostsLife | main.js:205-223 | One missed wave, under any shuffle of its choices, costs a life and keeps the score. It then ends the game, runs out of questions, or shows the next question. |
| QuizScenarios.PerfectPlay | main.js:186-198 | Answering the upcoming questions right, under any shuffle of each wave's choices, adds one point per question with no life lost. The session is won on the tenth point, or ends with no more questions when the bank runs out first. |
| QuizScenarios.NeverShooting | main.js:168-169 | Letting every upcoming wave fall, under any shuffle of each wave's choices, costs one life per wave and scores nothing. The game is over after as many waves as there were lives. |
| QuizScenarios.TenRightAnswersWin | main.js:191-195 | A fresh session with ten right answers, under any shuffle of each wave's choices, is won on the tenth hit with all lives left. The restart then resets to 3 lives, 0 points and index 0. |
| QuizScenarios.ThreeMissesLose | main.js:216-219 | A fresh session where the player never shoots is over after the third missed wave, under any shuffle of each wave's choices, with no points. |
| QuizScenarios.SmallBankRunsOut | main.js:77-81 | With fewer than ten questions, answering all of them right under any shuffle of each wave's choices ends the session for lack of questions, with every life and one point per question. |

## Left out

- Rendering, sprites, text styles, asset loading (`preload`), player
  movement, `shoot`, bullet velocities and the game `config`. These are
  engine calls with no bookkeeping of their own.
- Pixel geometry: the `800 / (n + 1)` spacing, the start height, the label
  offset and the `y > 580` bottom test. The model reduces the bottom test
  to the `Miss` event.
- Randomness of the shuffles. A shuffle is only "some permutation", given as
  an event parameter.
- The in-place effect of the choice shuffle. `Phaser.Utils.Array.Shuffle`
  reorders the stored question's `choices` (main.js:102). The model keeps
  the bank's choice order, because nothing depends on it.
- Timer durations (2000 ms, 1000 ms). Timers are discrete events. Timers
  still pending at a restart are taken to be dropped by the engine, since
  the model's restart discards the phase that held them.
- `alert` notifications, and the score and lives text updates. These are
  blocking UI and display.
- The overlap collider being registered again on every wave
  (main.js:139). Its effect depends on the engine.
- Events that arrive in the same frame after `scene.restart()` was queued,
  for example further enemies crossing the bottom edge in the same
  `update` iteration. What the engine delivers then depends on the engine.
  The model accepts only the restart in the ending phase.
- Bullets are never removed when they leave the screen. They carry no
  bookkeeping.
- The stale `currentData` kept across a restart. `Create` starts with no
  current question, because `showQuestion` overwrites it before any read.
- The label reference that `loseLife` destroys stays in the `answerTexts`
  array as a dead object until the next clear. `LoseLife` removes it from
  the label list instead.
