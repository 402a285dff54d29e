/** The bookkeeping the Breakout page keeps between reruns: the latest frame,
    the running score of the current game, whether the game is over, the
    lives left and the final scores of earlier games. The game itself runs
    inside an emulator that is not part of this model; what it answers to a
    step is passed in as a `StepResult`, and its frames are the opaque type
    `Obs`. */
module GameSession {

  datatype Option<T> = None | Some(value: T)

  /** The lives a game starts with. */
  const INITIAL_LIVES: int := 5

  /** The emulator's answer to one step: the next frame, the reward earned,
      whether the game ended, and the lives count if the info carried one. */
  datatype StepResult<Obs> = StepResult(obs: Obs, reward: int, done: bool, lives: Option<int>)

  datatype Session<Obs> = Session(
    obs: Obs,
    totalReward: int,
    done: bool,
    currentLives: int,
    episodeRewards: seq<int>
  )

  /** Two sessions that differ at most in their frame. */
  predicate SameScoreboard<Obs>(s: Session<Obs>, t: Session<Obs>) {
    t.totalReward == s.totalReward && t.done == s.done
    && t.currentLives == s.currentLives && t.episodeRewards == s.episodeRewards
  }

  /** The session created on the first visit, showing the emulator's
      first frame. */
  function Init<Obs>(obs: Obs): (s: Session<Obs>)
    ensures s.obs == obs && s.totalReward == 0 && !s.done
    ensures s.currentLives == INITIAL_LIVES && s.episodeRewards == []
  {
    Session(obs, 0, false, INITIAL_LIVES, [])
  }

  /** The "Fire Ball" button: the emulator is stepped with FIRE, and only its
      frame is kept; its reward and its done flag are thrown away. */
  function Fire<Obs>(s: Session<Obs>, step: StepResult<Obs>): (t: Session<Obs>)
    ensures t.obs == step.obs
    ensures SameScoreboard(s, t)
  {
    s.(obs := step.obs)
  }

  /** The lives shown after a step: replaced when the info carries a count
      that differs from the one shown, kept otherwise. */
  function UpdatedLives(current: int, reported: Option<int>): (lives: int)
    ensures lives != current <==> reported.Some? && reported.value != current
    ensures reported.Some? ==> lives == reported.value
  {
    if reported.Some? && reported.value != current then reported.value else current
  }

  /** One slider-driven step. It is taken only while the game is not over;
      when it is over, the session is left as it is. */
  function Tick<Obs>(s: Session<Obs>, step: StepResult<Obs>): (t: Session<Obs>)
    ensures s.done ==> t == s
    ensures !s.done ==> t.obs == step.obs && t.done == step.done
    ensures t.totalReward - s.totalReward == (if s.done then 0 else step.reward)
    ensures t.currentLives != s.currentLives
            <==> !s.done && step.lives.Some? && step.lives.value != s.currentLives
    ensures !s.done && step.lives.Some? ==> t.currentLives == step.lives.value
    ensures t.episodeRewards == s.episodeRewards
  {
    if s.done then s
    else s.(obs := step.obs,
            totalReward := s.totalReward + step.reward,
            done := step.done,
            currentLives := UpdatedLives(s.currentLives, step.lives))
  }

  /** The game-over branch as the page runs it: on every rerun that finds
      the game over, the current score is appended to the history. */
  function RecordIfOver<Obs>(s: Session<Obs>): (t: Session<Obs>)
    ensures |t.episodeRewards| == |s.episodeRewards| + (if s.done then 1 else 0)
    ensures t.episodeRewards[..|s.episodeRewards|] == s.episodeRewards
    ensures s.done ==> t.episodeRewards[|s.episodeRewards|] == s.totalReward
    ensures t.obs == s.obs && t.totalReward == s.totalReward
    ensures t.done == s.done && t.currentLives == s.currentLives
  {
    if s.done then s.(episodeRewards := s.episodeRewards + [s.totalReward]) else s
  }

  /** The "Reset Game" button: a fresh game with the emulator's reset frame;
      the history of earlier games is kept. */
  function Reset<Obs>(s: Session<Obs>, obs: Obs): (t: Session<Obs>)
    ensures t == Init(obs).(episodeRewards := s.episodeRewards)
  {
    s.(obs := obs, totalReward := 0, done := false, currentLives := INITIAL_LIVES)
  }

  /** Fire discards the step's reward and done flag: two answers with the
      same frame leave the same session. */
  lemma FireIgnoresRewardAndDone<Obs>(s: Session<Obs>, a: StepResult<Obs>, b: StepResult<Obs>)
    requires a.obs == b.obs
    ensures Fire(s, a) == Fire(s, b)
  {
  }

  /** Reset forgets everything about the game before it: two sessions with
      the same history reset to the same session, and resetting twice is
      the same as resetting once. */
  lemma ResetForgetsGame<Obs>(s: Session<Obs>, u: Session<Obs>, obs: Obs, obs': Obs)
    requires s.episodeRewards == u.episodeRewards
    ensures Reset(s, obs) == Reset(u, obs)
    ensures Reset(Reset(s, obs'), obs) == Reset(s, obs)
  {
  }

  /** Reset of a session with no history is the first-visit session. */
  lemma ResetOfFreshIsInit<Obs>(s: Session<Obs>, obs: Obs)
    requires s.episodeRewards == []
    ensures Reset(s, obs) == Init(obs)
  {
  }
}
