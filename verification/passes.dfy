/** One rerun of the Breakout page and sequences of reruns. Each rerun
    reads what the player did (Fire pressed or not, the slider position,
    Reset pressed or not) and what the emulator answered, and moves the
    session on in the page's order: fire, slider step, game-over branch. */
module Passes {
  import opened SliderControl
  import opened GameSession

  /** The inputs of one rerun. `fire` is the emulator's answer to FIRE when
      the button was pressed; `tick` is its answer to the slider's action
      and is used only when a step is taken; `reset` is the emulator's reset
      frame when the Reset button was pressed. */
  datatype Controls<Obs> = Controls(
    fire: Option<StepResult<Obs>>,
    slider: int,
    tick: StepResult<Obs>,
    reset: Option<Obs>
  )

  /** The session after a rerun and the action codes sent to the emulator
      during it, in order. */
  datatype PassResult<Obs> = PassResult(session: Session<Obs>, sent: seq<int>)

  /** Whether the game is over once the slider step of a rerun is done:
      Fire never changes the done flag, so only the step can end the game. */
  predicate OverAfterStep<Obs>(s: Session<Obs>, c: Controls<Obs>) {
    s.done || c.tick.done
  }

  /** The score the game has after the slider step of a rerun. */
  function ScoreAfterStep<Obs>(s: Session<Obs>, c: Controls<Obs>): int {
    if s.done then s.totalReward else s.totalReward + c.tick.reward
  }

  /** Fire (if pressed) and then the slider step (if the game is not over). */
  function Advance<Obs>(s: Session<Obs>, c: Controls<Obs>): (a: PassResult<Obs>)
    ensures a.session.done == OverAfterStep(s, c)
    ensures a.session.totalReward == ScoreAfterStep(s, c)
    ensures a.session.episodeRewards == s.episodeRewards
    ensures a.session.currentLives == (if s.done then s.currentLives else UpdatedLives(s.currentLives, c.tick.lives))
    ensures FIRE in a.sent <==> c.fire.Some?
    ensures |a.sent| == (if c.fire.Some? then 1 else 0) + (if s.done then 0 else 1)
    ensures forall i :: 0 <= i < |a.sent| && a.sent[i] != FIRE ==> a.sent[i] == ActionFromSlider(c.slider)
    ensures c.fire.Some? ==> a.sent[0] == FIRE
    ensures !s.done ==> a.sent[|a.sent| - 1] == ActionFromSlider(c.slider)
    ensures a.session.obs == (if !s.done then c.tick.obs else if c.fire.Some? then c.fire.value.obs else s.obs)
  {
    var afterFire := if c.fire.Some? then Fire(s, c.fire.value) else s;
    var fired := if c.fire.Some? then [FIRE] else [];
    var stepped := if afterFire.done then [] else [ActionFromSlider(c.slider)];
    PassResult(Tick(afterFire, c.tick), fired + stepped)
  }

  /** The Reset button is drawn only inside the game-over branch, so a press
      takes effect only when the game is over. */
  function ResetIfPressed<Obs>(s: Session<Obs>, c: Controls<Obs>): (t: Session<Obs>)
    ensures s.done && c.reset.Some? ==> t == Init(c.reset.value).(episodeRewards := s.episodeRewards)
    ensures !(s.done && c.reset.Some?) ==> t == s
  {
    if s.done && c.reset.Some? then Reset(s, c.reset.value) else s
  }

  /** One rerun as the page runs it: the game-over branch appends the score
      on every rerun that finds the game over. */
  function Pass<Obs>(s: Session<Obs>, c: Controls<Obs>): (r: PassResult<Obs>)
    ensures r.session.episodeRewards
            == s.episodeRewards + (if OverAfterStep(s, c) then [ScoreAfterStep(s, c)] else [])
    ensures r.session.done <==> OverAfterStep(s, c) && c.reset.None?
    ensures OverAfterStep(s, c) && c.reset.Some? ==>
              r.session.obs == c.reset.value && r.session.totalReward == 0
              && r.session.currentLives == INITIAL_LIVES
    ensures !(OverAfterStep(s, c) && c.reset.Some?) ==> r.session.totalReward == ScoreAfterStep(s, c)
    ensures !(OverAfterStep(s, c) && c.reset.Some?) ==>
              r.session.currentLives == (if s.done then s.currentLives else UpdatedLives(s.currentLives, c.tick.lives))
    ensures FIRE in r.sent <==> c.fire.Some?
    ensures |r.sent| == (if c.fire.Some? then 1 else 0) + (if s.done then 0 else 1)
    ensures forall i :: 0 <= i < |r.sent| && r.sent[i] != FIRE ==> r.sent[i] == ActionFromSlider(c.slider)
    ensures c.fire.Some? ==> r.sent[0] == FIRE
    ensures !s.done ==> r.sent[|r.sent| - 1] == ActionFromSlider(c.slider)
    ensures !(OverAfterStep(s, c) && c.reset.Some?) ==>
              r.session.obs == (if !s.done then c.tick.obs else if c.fire.Some? then c.fire.value.obs else s.obs)
  {
    var a := Advance(s, c);
    PassResult(ResetIfPressed(RecordIfOver(a.session), c), a.sent)
  }

  /** One rerun with the game-over score recorded once: only on the rerun
      whose slider step ended the game. Everything else is as in `Pass`. */
  function PassOnce<Obs>(s: Session<Obs>, c: Controls<Obs>): (r: PassResult<Obs>)
    ensures r.session.episodeRewards
            == s.episodeRewards + (if !s.done && c.tick.done then [s.totalReward + c.tick.reward] else [])
    ensures r.session.done <==> OverAfterStep(s, c) && c.reset.None?
    ensures OverAfterStep(s, c) && c.reset.Some? ==>
              r.session.obs == c.reset.value && r.session.totalReward == 0
              && r.session.currentLives == INITIAL_LIVES
    ensures !(OverAfterStep(s, c) && c.reset.Some?) ==> r.session.totalReward == ScoreAfterStep(s, c)
    ensures !(OverAfterStep(s, c) && c.reset.Some?) ==>
              r.session.currentLives == (if s.done then s.currentLives else UpdatedLives(s.currentLives, c.tick.lives))
    ensures r.sent == Pass(s, c).sent
    ensures r.session == Pass(s, c).session.(episodeRewards := r.session.episodeRewards)
  {
    var a := Advance(s, c);
    var recorded := if !s.done && a.session.done then RecordIfOver(a.session) else a.session;
    PassResult(ResetIfPressed(recorded, c), a.sent)
  }

  /** A sequence of reruns with the corrected game-over branch. The history
      only ever grows at its end, by at most one entry per rerun. */
  function Run<Obs>(s: Session<Obs>, cs: seq<Controls<Obs>>): (t: Session<Obs>)
    ensures s.episodeRewards <= t.episodeRewards
    ensures |t.episodeRewards| <= |s.episodeRewards| + |cs|
    decreases |cs|
  {
    if |cs| == 0 then s else Run(PassOnce(s, cs[0]).session, cs[1..])
  }

  /** A sequence of reruns as the page runs them. */
  function RunAsWritten<Obs>(s: Session<Obs>, cs: seq<Controls<Obs>>): (t: Session<Obs>)
    ensures s.episodeRewards <= t.episodeRewards
    ensures |t.episodeRewards| <= |s.episodeRewards| + |cs|
    decreases |cs|
  {
    if |cs| == 0 then s else RunAsWritten(Pass(s, cs[0]).session, cs[1..])
  }

  /** True when no rerun of the sequence presses Reset. */
  predicate NoReset<Obs>(cs: seq<Controls<Obs>>) {
    forall i :: 0 <= i < |cs| ==> cs[i].reset.None?
  }

  /** True when the emulator never reports the end of the game. */
  predicate NeverOver<Obs>(cs: seq<Controls<Obs>>) {
    forall i :: 0 <= i < |cs| ==> !cs[i].tick.done
  }

  /** `n` copies of `x`. */
  function Repeat(x: int, n: nat): (xs: seq<int>)
    ensures |xs| == n
    ensures forall i :: 0 <= i < n ==> xs[i] == x
  {
    if n == 0 then [] else [x] + Repeat(x, n - 1)
  }

  /** The rewards of the slider steps, added up. */
  function TickRewards<Obs>(cs: seq<Controls<Obs>>): int
    decreases |cs|
  {
    if |cs| == 0 then 0 else cs[0].tick.reward + TickRewards(cs[1..])
  }

  /** The lives shown after the slider steps, starting from `lives`. */
  function LivesAfter<Obs>(lives: int, cs: seq<Controls<Obs>>): int
    decreases |cs|
  {
    if |cs| == 0 then lives else LivesAfter(UpdatedLives(lives, cs[0].tick.lives), cs[1..])
  }

  /** While no step ends the game, the game-over branch never runs, so the
      page as written and the corrected branch agree rerun for rerun. */
  lemma {:induction false} RunsAgreeWhileRunning<Obs>(s: Session<Obs>, cs: seq<Controls<Obs>>)
    requires !s.done && NeverOver(cs)
    ensures Run(s, cs) == RunAsWritten(s, cs)
    decreases |cs|
  {
    if |cs| > 0 {
      assert !cs[0].tick.done;
      assert PassOnce(s, cs[0]).session == Pass(s, cs[0]).session;
      var t := Pass(s, cs[0]).session;
      assert NeverOver(cs[1..]) by {
        forall i | 0 <= i < |cs[1..]| ensures !cs[1..][i].tick.done {
          assert cs[1..][i] == cs[i + 1];
        }
      }
      RunsAgreeWhileRunning(t, cs[1..]);
    }
  }

  /** While the game runs, the score is the starting score plus every
      reward the emulator reported, the lives are the latest count it
      reported, and the history is untouched. */
  lemma {:induction false} RewardAccumulates<Obs>(s: Session<Obs>, cs: seq<Controls<Obs>>)
    requires !s.done && NoReset(cs) && NeverOver(cs)
    ensures Run(s, cs).totalReward == s.totalReward + TickRewards(cs)
    ensures Run(s, cs).currentLives == LivesAfter(s.currentLives, cs)
    ensures !Run(s, cs).done
    ensures Run(s, cs).episodeRewards == s.episodeRewards
    ensures RunAsWritten(s, cs) == Run(s, cs)
    decreases |cs|
  {
    RunsAgreeWhileRunning(s, cs);
    if |cs| > 0 {
      var t := PassOnce(s, cs[0]).session;
      assert t.totalReward == s.totalReward + cs[0].tick.reward;
      assert t.currentLives == UpdatedLives(s.currentLives, cs[0].tick.lives);
      assert NoReset(cs[1..]) && NeverOver(cs[1..]) by {
        forall i | 0 <= i < |cs[1..]|
          ensures cs[1..][i].reset.None? && !cs[1..][i].tick.done
        {
          assert cs[1..][i] == cs[i + 1];
        }
      }
      RewardAccumulates(t, cs[1..]);
    }
  }

  /** As the page runs it, every rerun while the game is over appends the
      same final score again: after `n` reruns without Reset the history
      holds `n` copies of it. */
  lemma {:induction false} AsWrittenDuplicatesScore<Obs>(s: Session<Obs>, cs: seq<Controls<Obs>>)
    requires s.done && NoReset(cs)
    ensures RunAsWritten(s, cs).episodeRewards == s.episodeRewards + Repeat(s.totalReward, |cs|)
    ensures RunAsWritten(s, cs).done
    ensures RunAsWritten(s, cs).totalReward == s.totalReward
    decreases |cs|
  {
    if |cs| > 0 {
      var t := Pass(s, cs[0]).session;
      assert t.episodeRewards == s.episodeRewards + [s.totalReward];
      assert NoReset(cs[1..]) by {
        forall i | 0 <= i < |cs[1..]| ensures cs[1..][i].reset.None? {
          assert cs[1..][i] == cs[i + 1];
        }
      }
      AsWrittenDuplicatesScore(t, cs[1..]);
      assert Repeat(s.totalReward, |cs|) == [s.totalReward] + Repeat(s.totalReward, |cs| - 1);
    }
  }

  /** The smallest case of the duplication: a game whose step ends it with
      score 7, followed by two reruns before Reset, leaves [7, 7, 7] in the
      history as the page runs it, and [7] with the corrected branch. */
  lemma AsWrittenThreeEntriesForOneGame<Obs>(obs: Obs)
    ensures var s := Init(obs);
            var last := Controls(None, DEFAULT_SLIDER, StepResult(obs, 7, true, Some(0)), None);
            var idle := Controls(None, DEFAULT_SLIDER, StepResult(obs, 0, false, None), None);
            RunAsWritten(s, [last, idle, idle]).episodeRewards == [7, 7, 7]
            && Run(s, [last, idle, idle]).episodeRewards == [7]
  {
    var s := Init(obs);
    var last := Controls(None, DEFAULT_SLIDER, StepResult(obs, 7, true, Some(0)), None);
    var idle := Controls(None, DEFAULT_SLIDER, StepResult(obs, 0, false, None), None);
    var cs := [last, idle, idle];
    var t := Pass(s, last).session;
    assert t.episodeRewards == [7] && t.done && t.totalReward == 7;
    assert cs[1..] == [idle, idle];
    AsWrittenDuplicatesScore(t, [idle, idle]);
    assert Repeat(7, 2) == [7, 7];
    var u := PassOnce(s, last).session;
    assert u.episodeRewards == [7] && u.done;
    CorrectedRecordsOnce(u, [idle, idle]);
  }

  /** With the corrected branch, reruns while the game is over record
      nothing more: the final score is in the history once. */
  lemma {:induction false} CorrectedRecordsOnce<Obs>(s: Session<Obs>, cs: seq<Controls<Obs>>)
    requires s.done && NoReset(cs)
    ensures Run(s, cs).episodeRewards == s.episodeRewards
    ensures Run(s, cs).done
    ensures Run(s, cs).totalReward == s.totalReward
    decreases |cs|
  {
    if |cs| > 0 {
      var t := PassOnce(s, cs[0]).session;
      assert NoReset(cs[1..]) by {
        forall i | 0 <= i < |cs[1..]| ensures cs[1..][i].reset.None? {
          assert cs[1..][i] == cs[i + 1];
        }
      }
      CorrectedRecordsOnce(t, cs[1..]);
    }
  }

  /** A whole game with the corrected branch: from a running game, reruns in
      which the emulator ends the game on the last slider step and Reset is
      never pressed add exactly one entry, the game's final score. */
  lemma {:induction false} CorrectedGameRecordsFinalScore<Obs>(s: Session<Obs>, cs: seq<Controls<Obs>>)
    requires !s.done && |cs| > 0 && NoReset(cs)
    requires NeverOver(cs[..|cs| - 1]) && cs[|cs| - 1].tick.done
    ensures Run(s, cs).episodeRewards == s.episodeRewards + [s.totalReward + TickRewards(cs)]
    ensures Run(s, cs).done
    decreases |cs|
  {
    var c := cs[0];
    var t := PassOnce(s, c).session;
    assert NoReset(cs[1..]) by {
      forall i | 0 <= i < |cs[1..]| ensures cs[1..][i].reset.None? {
        assert cs[1..][i] == cs[i + 1];
      }
    }
    if |cs| == 1 {
      assert TickRewards(cs) == c.tick.reward + TickRewards(cs[1..]);
      assert Run(s, cs) == Run(t, []);
    } else {
      assert !c.tick.done by {
        assert cs[..|cs| - 1][0] == c;
      }
      assert t.totalReward == s.totalReward + c.tick.reward;
      assert cs[1..][..|cs[1..]| - 1] == cs[..|cs| - 1][1..];
      assert NeverOver(cs[1..][..|cs[1..]| - 1]) by {
        var p := cs[1..][..|cs[1..]| - 1];
        forall i | 0 <= i < |p| ensures !p[i].tick.done {
          assert p[i] == cs[..|cs| - 1][i + 1];
        }
      }
      CorrectedGameRecordsFinalScore(t, cs[1..]);
    }
  }
}
