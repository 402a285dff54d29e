/** The paddle slider of the Breakout page: a value in 0..100 is turned into
    one of the Atari Breakout action codes that the environment accepts. */
module SliderControl {

  /** Atari Breakout action codes, as the environment numbers them. */
  const NOOP: int := 0
  const FIRE: int := 1
  const RIGHT: int := 2
  const LEFT: int := 3

  /** The slider's starting position when the page is first drawn. */
  const DEFAULT_SLIDER: int := 50

  /** True of the codes a slider position can produce. */
  predicate IsMovement(action: int) {
    action == NOOP || action == RIGHT || action == LEFT
  }

  /** The five threshold bands of the slider, strong and mild on each side.
      The two bands on each side lead to the same action, so the slider only
      ever distinguishes three directions. */
  function ActionFromSlider(value: int): (action: int)
    ensures IsMovement(action)
    ensures action != FIRE
    ensures action == LEFT <==> value < 45
    ensures action == NOOP <==> 45 <= value < 55
    ensures action == RIGHT <==> 55 <= value
  {
    if value < 25 then LEFT        // strong left
    else if value < 45 then LEFT   // mild left
    else if value < 55 then NOOP   // middle
    else if value < 75 then RIGHT  // mild right
    else RIGHT                     // strong right
  }

  /** Direction of a movement code on the axis LEFT < NOOP < RIGHT. */
  function Rank(action: int): (k: nat)
    requires IsMovement(action)
    ensures k <= 2
    ensures action == LEFT <==> k == 0
    ensures action == NOOP <==> k == 1
    ensures action == RIGHT <==> k == 2
  {
    if action == LEFT then 0 else if action == NOOP then 1 else 2
  }

  /** Independent reference for the slider: the position measured against
      the two thresholds of the middle band, left to right. */
  function ThreeBand(value: int): (k: nat)
    ensures k <= 2
  {
    (if value >= 45 then 1 else 0) + (if value >= 55 then 1 else 0)
  }

  /** The slider agrees with the three-band reference on every input. */
  lemma SliderMatchesThreeBands(value: int)
    ensures Rank(ActionFromSlider(value)) == ThreeBand(value)
  {
  }

  /** Moving the slider to the right never turns the paddle's direction
      further left. */
  lemma SliderMonotone(a: int, b: int)
    requires a <= b
    ensures Rank(ActionFromSlider(a)) <= Rank(ActionFromSlider(b))
  {
    SliderMatchesThreeBands(a);
    SliderMatchesThreeBands(b);
  }

  /** The band edges on either side of each threshold. */
  lemma SliderBoundaries()
    ensures ActionFromSlider(0) == LEFT
    ensures ActionFromSlider(24) == LEFT
    ensures ActionFromSlider(25) == LEFT
    ensures ActionFromSlider(44) == LEFT
    ensures ActionFromSlider(45) == NOOP
    ensures ActionFromSlider(54) == NOOP
    ensures ActionFromSlider(55) == RIGHT
    ensures ActionFromSlider(74) == RIGHT
    ensures ActionFromSlider(75) == RIGHT
    ensures ActionFromSlider(100) == RIGHT
  {
  }

  /** A slider position for each direction: every movement code is reached,
      so the slider is onto LEFT, NOOP and RIGHT and onto nothing else. */
  function SliderFor(action: int): (value: int)
    requires IsMovement(action)
    ensures 0 <= value <= 100
    ensures ActionFromSlider(value) == action
  {
    if action == LEFT then 0 else if action == NOOP then DEFAULT_SLIDER else 100
  }

  /** The untouched slider keeps the paddle still. */
  lemma DefaultSliderIsNoop()
    ensures ActionFromSlider(DEFAULT_SLIDER) == NOOP
  {
  }
}
