# Breakout slider page: action mapping and session bookkeeping

A Dafny model of the logic in `app.py`, a Streamlit page on which a person
plays Atari Breakout with a slider. The game itself (paddle, ball, bricks,
scoring, lives) runs inside gym's `BreakoutNoFrameskip-v4` emulator behind
`AtariPreprocessing`. That emulator is not part of this model. What the page
itself decides is modelled:

- `SliderControl` (`slider.dfy`) models `get_action_from_slider`. It maps a
  slider position to an Atari action code: 0 = NOOP, 1 = FIRE, 2 = RIGHT,
  3 = LEFT.
- `GameSession` (`session.dfy`) models the session record the page keeps
  between reruns: `obs`, `total_reward`, `done`, `current_lives` and
  `episode_rewards`. It also holds the page's updates of that record: first
  visit, the Fire button, the slider step, the game-over branch and the Reset
  button.
- `Passes` (`passes.dfy`) models one rerun of `main`: Fire, then the slider
  step, then the game-over branch. It also models sequences of reruns.

The emulator's answer to a step is a parameter (`StepResult`). It holds the
next frame, the reward, the done flag and the lives count if `info` carried
`ale.lives`. Frames are an opaque type parameter `Obs`. Rewards are whole
numbers.

## Model

| member | source | states |
|---|---|---|
| SliderControl.ActionFromSlider | app.py:22-35 | Every slider value gives NOOP, RIGHT or LEFT and never FIRE. The five bands collapse to three: below 45 is LEFT, 45 up to but not including 55 is NOOP, 55 and above is RIGHT, each as an if-and-only-if. |
| SliderControl.SliderMatchesThreeBands | app.py:26-35 | On every input, the mapping agrees with an independent three-band reference that counts how many of the thresholds 45 and 55 the value has reached. |
| SliderControl.SliderMonotone | app.py:26-35 | Moving the slider right never moves the direction left: with LEFT < NOOP < RIGHT, a <= b implies rank(map(a)) <= rank(map(b)). |
| SliderControl.SliderBoundaries | app.py:26-35 | The values on both sides of every threshold: 0, 24, 25 and 44 give LEFT; 45 and 54 give NOOP; 55, 74, 75 and 100 give RIGHT. |
| SliderControl.SliderFor | app.py:22-35 | Each of LEFT, NOOP and RIGHT is produced by some slider value in 0..100, so the mapping is onto exactly these three codes. |
| SliderControl.DefaultSliderIsNoop | app.py:87 | The slider's starting position, 50, keeps the paddle still. |
| GameSession.Init | app.py:48-54 | The first visit shows the emulator's reset frame, with score 0, the game not over, 5 lives and an empty history. |
| GameSession.Fire | app.py:78-81 | The Fire button replaces only the frame. Score, done flag, lives and history stay unchanged. |
| GameSession.FireIgnoresRewardAndDone | app.py:80-81 | Two emulator answers with the same frame leave the same session, so the step's reward and done flag are discarded. |
| GameSession.UpdatedLives | app.py:111-113 | The lives count changes if and only if the info carries a different count, and then it becomes that count. |
| GameSession.Tick | app.py:90-113 | When the game is over, a slider step leaves the session unchanged. Otherwise it takes the emulator's frame and done flag, adds exactly the reward to the score, changes lives only to a differing reported count, and keeps the history. |
| GameSession.RecordIfOver | app.py:119-121 | When the game is over, the history grows by one entry, the current score, and the old history stays as a prefix. When it is not over, nothing grows. No other field changes. |
| GameSession.Reset | app.py:123-127 | Reset gives the first-visit session for the new frame: score 0, not over, 5 lives. The history of earlier games is kept. |
| GameSession.ResetForgetsGame | app.py:123-127 | Sessions with the same history reset to the same session. Resetting twice equals resetting once. |
| GameSession.ResetOfFreshIsInit | app.py:123-127 | Resetting a session that has no history gives exactly the first-visit session. |
| Passes.Advance | app.py:78-113 | Fire then the slider step: the game is over afterwards if and only if it was already over or the emulator reported done. FIRE is sent if and only if the button was pressed, and then first. The slider's action is sent, last, if and only if the game was running; every code other than FIRE is the slider's action. The frame is the step's if the game was running, else Fire's if pressed, else unchanged. |
| Passes.ResetIfPressed | app.py:119-127 | A Reset press has an effect only when the game is over. It then gives the first-visit session with the history kept; otherwise nothing changes. |
| Passes.Pass | app.py:78-127 | One rerun as written: the history grows by the score after the step if and only if the game is over after the step. The game stays over if and only if Reset was not pressed. Score and lives follow the step, or restart on Reset. FIRE is sent first if and only if the button was pressed; the slider's action is sent last if and only if the game was running. Without Reset, the frame is the step's if the game was running, else Fire's if pressed, else unchanged. |
| Passes.PassOnce | app.py:119-121 | Corrected rerun: the final score is appended only on the rerun whose step ended the game. The session equals the as-written rerun's in every field but the history, and the same actions are sent. |
| Passes.Run | app.py:119-152 | Over the self-triggered reruns (app.py:151-152) with the corrected branch (app.py:119-121), the history only grows at its end and by at most one entry per rerun. |
| Passes.RunAsWritten | app.py:119-152 | Over the self-triggered reruns (app.py:151-152) with the game-over branch as written (app.py:119-121), the history only grows at its end and by at most one entry per rerun. |
| Passes.RewardAccumulates | app.py:97-113 | While no step reports done and Reset is not pressed, the score is the start score plus the sum of the reported rewards. The lives are the latest differing reported count. The history is untouched and the game is not over. The page as written gives the same session. |
| Passes.RunsAgreeWhileRunning | app.py:90-121 | While no step reports done, reruns as written and reruns with the corrected branch produce the same session, since the game-over branch never runs. |
| Passes.AsWrittenDuplicatesScore | app.py:119-121 | As written, n reruns while the game is over, without Reset, append n copies of the same final score. |
| Passes.AsWrittenThreeEntriesForOneGame | app.py:90-121 | Concrete case from the first-visit session: a rerun whose step ends the game with score 7, then two reruns before Reset, leaves the history [7, 7, 7] as written and [7] with the corrected branch. |
| Passes.CorrectedRecordsOnce | app.py:119-121 | With the corrected branch, reruns while the game is over, without Reset, add nothing to the history. |
| Passes.CorrectedGameRecordsFinalScore | app.py:90-121 | With the corrected branch, a game that runs until its last step reports done adds exactly one history entry: the start score plus all the rewards. |

## Findings

| source | as written | input that shows it | evidently intended | confidence | as-written member | corrected member |
|---|---|---|---|---|---|---|
| app.py:119-121 | Every rerun that finds `done` true appends `total_reward` to `episode_rewards`. The page reruns itself every 0.05 s (app.py:151-152), so one finished game is appended once per rerun until Reset is pressed. | From the first visit, the rerun whose step ends the game scores 7 and appends it; two more reruns happen before Reset: the history is [7, 7, 7] for one game. | One entry per finished game, appended when `done` becomes true: the history plot labels its x axis "Games" (app.py:135). | medium, not executed | Passes.AsWrittenDuplicatesScore | Passes.CorrectedRecordsOnce |

`Passes.Pass` and `Passes.RunAsWritten` model the code as written.
`Passes.PassOnce` and `Passes.Run` use the corrected branch.
`Passes.CorrectedGameRecordsFinalScore` proves that one game adds exactly one entry, and
`Passes.AsWrittenThreeEntriesForOneGame` shows both behaviours on the same input.

## Left out

- The game itself (physics, bricks, collisions, scoring, lives, frame rendering): it runs inside the gym/ALE emulator (app.py:9-20), a foreign library. Its answers are parameters instead.
- The emulator's inner state: each rerun gets its `StepResult` as input, so nothing constrains how successive answers relate.
- All Streamlit display: titles, columns, images, markdown, warnings, the frame shape check (app.py:38-45, 56-76, 83, 105-108, 113, 120, 141-148). Button presses are modelled only as inputs of a rerun.
- The score-history plot (app.py:130-138): display only.
- `time.sleep` and `st.experimental_rerun` (app.py:128, 150-152): timing and the rerun mechanism. A sequence of reruns is modelled as a list of inputs.
- The exception handler around the step (app.py:115-116): its only effect is an error message from a failing foreign call.
- `action_space_size` (app.py:22): unused by the function.
- GameSession.Tick: rewards are modelled as integers; gym's reward is a number that Breakout only ever makes whole.
