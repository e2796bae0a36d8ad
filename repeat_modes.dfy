/**
 * The repeat button's three modes (js/script.js, REPEAT_MODES and
 * toggleRepeatMode). The page keeps the mode as the button's text; here it
 * is an enumeration, with Label/ParseLabel for the text encoding.
 */
module RepeatModes {
  import opened Wrappers

  /** `repeat` loops the playlist, `repeat_one` loops the current song,
      `shuffle` picks another song at random when a song ends. */
  datatype RepeatMode = Repeat | RepeatOne | Shuffle

  /** The button text the page stores for each mode. */
  function Label(m: RepeatMode): string
  {
    match m
    case Repeat => "repeat"
    case RepeatOne => "repeat_one"
    case Shuffle => "shuffle"
  }

  /** Reads a mode back from the button text; any other text is no mode. */
  function ParseLabel(s: string): (r: Option<RepeatMode>)
    ensures r.Some? ==> Label(r.value) == s
  {
    if s == "repeat" then Some(Repeat)
    else if s == "repeat_one" then Some(RepeatOne)
    else if s == "shuffle" then Some(Shuffle)
    else None
  }

  lemma LabelRoundTrip(m: RepeatMode)
    ensures ParseLabel(Label(m)) == Some(m)
  {
  }

  /** Place of a mode on the cycle repeat -> repeat_one -> shuffle. */
  function Position(m: RepeatMode): (p: nat)
    ensures p < 3
  {
    match m
    case Repeat => 0
    case RepeatOne => 1
    case Shuffle => 2
  }

  /** One click of the repeat button: one step forward on the cycle. */
  function Toggle(m: RepeatMode): (r: RepeatMode)
    ensures Position(r) == (Position(m) + 1) % 3
  {
    match m
    case Repeat => RepeatOne
    case RepeatOne => Shuffle
    case Shuffle => Repeat
  }

  /** The mode after k clicks. */
  function ToggleTimes(m: RepeatMode, k: nat): RepeatMode
  {
    if k == 0 then m else Toggle(ToggleTimes(m, k - 1))
  }

  lemma {:induction false} ToggleTimesPosition(m: RepeatMode, k: nat)
    ensures Position(ToggleTimes(m, k)) == (Position(m) + k) % 3
  {
    if k > 0 {
      ToggleTimesPosition(m, k - 1);
    }
  }

  /** The cycle has period exactly three: k clicks give the starting mode
      back if and only if k is a multiple of three. */
  lemma TogglePeriod(m: RepeatMode, k: nat)
    ensures ToggleTimes(m, k) == m <==> k % 3 == 0
  {
    ToggleTimesPosition(m, k);
  }
}
