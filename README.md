# Music player playback state machine

A Dafny model of the playback logic in the `MusicPlayer` class of the
Musicapp web page (`js/script.js`). It covers:
- the 1-based track pointer `musicIndex` and how next, previous, a playlist
  click, start-up and shuffle move it;
- the three repeat modes and the button that cycles them;
- what happens when a song ends;
- the play flag;
- the "now playing" marking of the playlist rows;
- the `M:SS` time text.

Modules:
- `Wrappers`: an `Option` type.
- `RepeatModes`: the modes `repeat`, `repeat_one` and `shuffle`. The page
  keeps the mode as the button's text. Here it is an enumeration, and
  `Label`/`ParseLabel` give the text encoding.
- `TrackIndex`: the pure arithmetic of the pointer. This covers next and
  previous with wrap-around, their k-fold iteration, and the random draw
  `Math.floor(Math.random() * N) + 1`. It also has the shuffle retry loop
  (`DrawOther`) and the function that specifies it (`ShufflePick`).
- `TimeFormat`: `formatTime`, with a reader `ParseTime` for the round trip.
- `Player`: the class `MusicPlayer`. Its fields are the playlist, the list
  rows (an array of `Row` values, one per `li`), `musicIndex`, the mode,
  the play flag, the loaded track and the playhead. Its invariant `Valid()`
  says four things:
  - the index is in 1..N;
  - there is one row per track;
  - the loaded track is `allMusic[musicIndex - 1]`;
  - the rows are marked for `musicIndex`.

Randomness is a parameter:
- The constructor takes the one `Math.random` value it uses.
- `HandleSongEnded` takes the stream of values the shuffle loop would draw.

The page's markup (the list rows, the button text and the wrapper's
`paused` class) is also passed to the constructor.

What the code does at its edges:
- With one track, the shuffle loop of `handleSongEnded` never ends;
  `SingleTrackShuffleNeverStops` states this.
- An empty playlist is not reported as an error: the constructor reads
  `allMusic[0]` in `loadMusic` and throws, so the model's constructor
  requires a non-empty list.
- The initial mode is whatever the button's text is in the page; it is a
  constructor parameter, not a fixed default.
- `formatTime` does not check its input. It has two callers: line 122
  passes the audio element's `currentTime`, which is never negative, and
  line 125 passes its `duration`, which can be NaN or Infinity. The model
  covers times >= 0.

## Model

| member | source | states |
|---|---|---|
| `RepeatModes.ParseLabel` | js/script.js:3-7 | reading a button text gives a mode only for that mode's own text |
| `RepeatModes.LabelRoundTrip` | js/script.js:3-7 | each mode's text reads back as that mode |
| `RepeatModes.Toggle` | js/script.js:144-157 | a click moves one step along repeat -> repeat_one -> shuffle -> repeat (position + 1 mod 3) |
| `RepeatModes.ToggleTimesPosition` | js/script.js:144-157 | k clicks move the mode k steps round the cycle of three |
| `RepeatModes.TogglePeriod` | js/script.js:144-157 | k clicks restore the starting mode if and only if k is a multiple of 3 |
| `TrackIndex.NextIndex` | js/script.js:108 | next stays in 1..N and equals i mod N + 1, so N goes to 1 |
| `TrackIndex.PrevIndex` | js/script.js:102 | previous stays in 1..N and equals (i - 2) mod N + 1, so 1 goes to N |
| `TrackIndex.NextPrevInverse` | js/script.js:101-112 | next then previous, and previous then next, restore every valid index |
| `TrackIndex.Advance` | js/script.js:107-112 | any number of next presses keeps the index in 1..N |
| `TrackIndex.AdvanceCompose` | js/script.js:107-112 | a + b next presses are a presses followed by b presses |
| `TrackIndex.AdvanceNoWrap` | js/script.js:108 | without reaching the end, k next presses add k |
| `TrackIndex.AdvanceFullCycle` | js/script.js:107-112 | N next presses return to the starting index |
| `TrackIndex.DrawIndex` | js/script.js:13 | a random draw in [0, 1) gives an index in 1..N |
| `TrackIndex.DrawReachesEvery` | js/script.js:171 | every index in 1..N is given by some draw |
| `TrackIndex.LandsElsewhereTail` | js/script.js:170-172 | if the first draw repeats the current track, a later draw is the one that ends the loop |
| `TrackIndex.ShufflePick` | js/script.js:168-173 | the track shuffle settles on is in 1..N and is never the current one |
| `TrackIndex.DrawOther` | js/script.js:169-172 | the do-while retry loop returns the first draw that differs from the current track |
| `TrackIndex.SingleTrackShuffleNeverStops` | js/script.js:169-172 | with one track, no draw differs from it, so the retry loop never ends |
| `TrackIndex.ShuffleReachesEveryOther` | js/script.js:168-173 | every index other than the current one can be chosen by shuffle |
| `TimeFormat.Decimal` | js/script.js:132 | minutes are rendered as at least one decimal digit, one digit exactly below 10, with no leading zero unless the number is 0 |
| `TimeFormat.DecimalRoundTrip` | js/script.js:132 | the decimal text of n denotes n |
| `TimeFormat.TwoDigits` | js/script.js:131-132 | seconds are two digits, zero-padded below 10, and denote the seconds value |
| `TimeFormat.FloorSplit` | js/script.js:130-131 | floor(t / 60) and floor(t % 60) are the minutes and seconds of the whole seconds of t |
| `TimeFormat.FormatTime` | js/script.js:129-133 | the text for a time t >= 0 reads back as floor(t) seconds, and the minutes carry no leading zero |
| `TimeFormat.FormatTimeSameSecond` | js/script.js:129-133 | two times give the same text if and only if they have the same whole seconds |
| `TimeFormat.FormatTimeExamples` | js/script.js:129-133 | 65 gives "1:05", 5 gives "0:05", 0 gives "0:00", 754.5 gives "12:34" |
| `Player.MarkRows` | js/script.js:187-193 | marking keeps every row's attributes, marks exactly the rows whose li-index is the index, and shows "Playing" there and the duration elsewhere |
| `Player.MarkRowsKeepsMarked` | js/script.js:44-48 | re-marking rows already marked for the same index changes nothing |
| `Player.MarkRowsSelectsRow` | js/script.js:62-63 | after choosing row k of a numbered list, exactly row k is playing and shows "Playing" |
| `Player.MusicPlayer.constructor` | js/script.js:10-18 | start-up picks the drawn index, loads that track and marks its row; mode and play flag come from the page |
| `Player.MusicPlayer.LoadMusic` | js/script.js:81-87 | the loaded track is `allMusic[indexNumb - 1]` |
| `Player.MusicPlayer.PlayMusic` | js/script.js:89-93 | the play flag is set |
| `Player.MusicPlayer.PauseMusic` | js/script.js:95-99 | the play flag is cleared |
| `Player.MusicPlayer.PlayingSong` | js/script.js:184-194 | the rows become the marking of the old rows for `musicIndex` |
| `Player.MusicPlayer.OnPlayPauseClick` | js/script.js:44-48 | the play flag flips and nothing else changes |
| `Player.MusicPlayer.PrevMusic` | js/script.js:101-106 | index becomes PrevIndex of the old one, that track is loaded and playing and its row marked, mode and playhead kept |
| `Player.MusicPlayer.NextMusic` | js/script.js:107-112 | index becomes NextIndex of the old one, that track is loaded and playing and its row marked, mode and playhead kept |
| `Player.MusicPlayer.OnListClick` | js/script.js:59-68 | a click on row k sets the index to k + 1, loads and plays it and marks exactly row k; a click outside every row changes nothing |
| `Player.MusicPlayer.ToggleRepeatMode` | js/script.js:144-157 | the mode becomes Toggle of the old one; nothing else changes |
| `Player.MusicPlayer.HandleSongEnded` | js/script.js:159-178 | repeat: the same outcome as NextMusic; repeat_one: same index, playhead 0, playing, rows untouched; shuffle: the index becomes the shuffle pick, never the old index; mode always kept |

## Left out

- DOM lookup, `querySelector` wiring and event-listener registration (js/script.js:20-79). Events are the methods' calls.
- The audio element's `play`, `pause` and `src` loading, and the image and audio paths (js/script.js:85-86, 92, 98). These are browser calls. `LoadMusic` records only which track is loaded.
- The play button's icon text (js/script.js:91, 97) and the repeat button's title (js/script.js:149, 152, 155). These are presentational.
- The progress bar width and click-to-seek, `updateTime` and `updateProgress` (js/script.js:114-127, 135-142). They are floating-point arithmetic on the audio element's time, duration and pixel offsets, and the duration may be NaN. The `loadeddata` listener re-registered on every tick is event plumbing.
- Minimize/expand and show/hide list (js/script.js:73-77, 180-182). These are presentational.
- `Math.random` itself (js/script.js:13, 171). Its values are parameters in [0, 1).
- The audio element resetting its own playhead when a new source loads. This is browser behaviour. `currentTime` records only the explicit reset at js/script.js:165.
- Button text that is none of the three labels. The source's toggle and end handlers then do nothing. The model's mode is always one of the three.
- The numbering of the list rows. The rows are built by page code that is not part of this model. The `li-index` = position + 1 numbering is stated as the condition `Numbered`, not assumed.
- `playingSong` compares the `li-index` attribute loosely with a number. The attribute is modelled as an integer.
- Player.MusicPlayer.HandleSongEnded: in shuffle mode it requires that some draw lands on another track. With a single track the source's loop never ends, and `SingleTrackShuffleNeverStops` states that instead.
- Player.MusicPlayer.OnListClick: a click on an `li` that is not a child of the list (index -1) is excluded by its precondition. The source would set `musicIndex` to 0, then `loadMusic` throws at js/script.js:82 and the index stays at 0.
- Player.MusicPlayer.constructor: the page is assumed to have one `li` per track (`Valid` and the constructor's precondition). The source never checks this. With more rows than tracks, a click on a row past the last track sets `musicIndex` above N at js/script.js:63, `loadMusic` throws at js/script.js:82, and the index stays out of range. The model does not cover that path.
- TimeFormat.FormatTime: covers times >= 0 on exact reals. It does not model negative or NaN input or double rounding.
