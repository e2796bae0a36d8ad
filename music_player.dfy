/**
 * The playback state machine of the MusicPlayer class in js/script.js:
 * the track pointer, the repeat mode, the play flag, the loaded track, the
 * playhead and the "now playing" marking of the playlist rows.
 */
module Player {
  import opened Wrappers
  import opened RepeatModes
  import opened TrackIndex

  /** One entry of the playlist: name, artist and the media file stem. */
  datatype Track = Track(name: string, artist: string, src: string)

  /** One `li` of the playlist view: its `li-index` and `t-duration`
      attributes, whether it has the `playing` class, and the text of its
      `.audio-duration` cell. */
  datatype Row = Row(liIndex: int, tDuration: string, playing: bool, durationText: string)

  /** Every row is marked playing exactly when its `li-index` is `index`,
      and shows "Playing" when marked and its duration otherwise. */
  ghost predicate Marked(rows: seq<Row>, index: int)
  {
    forall i :: 0 <= i < |rows| ==>
      (rows[i].playing <==> rows[i].liIndex == index) &&
      rows[i].durationText == (if rows[i].playing then "Playing" else rows[i].tDuration)
  }

  /** The rows carry the numbering the list view gives them: `li-index` is
      the position plus one. */
  ghost predicate Numbered(rows: seq<Row>)
  {
    forall i :: 0 <= i < |rows| ==> rows[i].liIndex == i + 1
  }

  /** Two row lists have the same attributes, row by row. */
  ghost predicate SameAttributes(a: seq<Row>, b: seq<Row>)
  {
    |a| == |b| &&
    forall i :: 0 <= i < |a| ==> a[i].liIndex == b[i].liIndex && a[i].tDuration == b[i].tDuration
  }

  /** One step of playingSong's forEach. */
  function MarkRow(row: Row, index: int): Row
  {
    var on := row.liIndex == index;
    row.(playing := on, durationText := if on then "Playing" else row.tDuration)
  }

  /** The rows after playingSong with `musicIndex == index`. */
  function MarkRows(rows: seq<Row>, index: int): (r: seq<Row>)
    ensures SameAttributes(r, rows) && Marked(r, index)
  {
    seq(|rows|, i requires 0 <= i < |rows| => MarkRow(rows[i], index))
  }

  /** Marking rows that are already marked for the same index changes nothing. */
  lemma MarkRowsKeepsMarked(rows: seq<Row>, index: int)
    requires Marked(rows, index)
    ensures MarkRows(rows, index) == rows
  {
  }

  /** After choosing row k of a numbered list, exactly row k is marked
      playing and shows "Playing"; every other row shows its duration. */
  lemma MarkRowsSelectsRow(rows: seq<Row>, k: int)
    requires Numbered(rows) && 0 <= k < |rows|
    ensures forall i :: 0 <= i < |rows| ==>
      (MarkRows(rows, k + 1)[i].playing <==> i == k) &&
      MarkRows(rows, k + 1)[i].durationText == (if i == k then "Playing" else rows[i].tDuration)
  {
    var r := MarkRows(rows, k + 1);
    forall i | 0 <= i < |rows|
      ensures (r[i].playing <==> i == k) &&
        r[i].durationText == (if i == k then "Playing" else rows[i].tDuration)
    {
      assert rows[i].liIndex == i + 1;
    }
  }

  class MusicPlayer {
    /** The playlist, fixed at construction. */
    const allMusic: seq<Track>
    /** The `li` rows of the playlist view. */
    const rows: array<Row>
    /** 1-based index of the selected track. */
    var musicIndex: int
    /** The repeat button's mode. */
    var mode: RepeatMode
    /** The wrapper's `paused` class, set while a song plays. */
    var playing: bool
    /** The track whose name, artist, cover and audio are loaded. */
    var loaded: Track
    /** The audio element's playhead, in seconds. */
    var currentTime: real

    ghost predicate Valid()
      reads this, rows
    {
      && 1 <= musicIndex <= |allMusic|
      && rows.Length == |allMusic|
      && loaded == allMusic[musicIndex - 1]
      && Marked(rows[..], musicIndex)
    }

    /** The start-up: a random track is loaded and its row marked. The mode
        and the play flag are what the page's markup holds. */
    constructor (musicList: seq<Track>, listRows: array<Row>, buttonMode: RepeatMode,
                 wrapperPaused: bool, random: real)
      requires 1 <= |musicList| && listRows.Length == |musicList|
      requires 0.0 <= random < 1.0
      modifies listRows
      ensures Valid()
      ensures allMusic == musicList && rows == listRows
      ensures musicIndex == DrawIndex(random, |musicList|)
      ensures mode == buttonMode && playing == wrapperPaused && currentTime == 0.0
      ensures rows[..] == MarkRows(old(listRows[..]), musicIndex)
    {
      allMusic := musicList;
      rows := listRows;
      musicIndex := DrawIndex(random, |musicList|);
      mode := buttonMode;
      playing := wrapperPaused;
      currentTime := 0.0;
      new;
      LoadMusic(musicIndex);
      PlayingSong();
    }

    /** loadMusic: shows and loads the track at 1-based position indexNumb. */
    method LoadMusic(indexNumb: int)
      requires 1 <= indexNumb <= |allMusic|
      modifies this`loaded
      ensures loaded == allMusic[indexNumb - 1]
    {
      loaded := allMusic[indexNumb - 1];
    }

    /** playMusic: adds the `paused` class (which means "playing"). */
    method PlayMusic()
      modifies this`playing
      ensures playing
    {
      playing := true;
    }

    /** pauseMusic: removes the `paused` class. */
    method PauseMusic()
      modifies this`playing
      ensures !playing
    {
      playing := false;
    }

    /** playingSong: marks the row whose `li-index` is musicIndex, unmarks
        all others. */
    method PlayingSong()
      modifies rows
      ensures rows[..] == MarkRows(old(rows[..]), musicIndex)
    {
      for i := 0 to rows.Length
        invariant forall j :: 0 <= j < i ==> rows[j] == MarkRow(old(rows[j]), musicIndex)
        invariant forall j :: i <= j < rows.Length ==> rows[j] == old(rows[j])
      {
        rows[i] := MarkRow(rows[i], musicIndex);
      }
    }

    /** The play/pause button: pauses when playing, plays otherwise. */
    method OnPlayPauseClick()
      requires Valid()
      modifies this, rows
      ensures Valid()
      ensures playing == !old(playing)
      ensures musicIndex == old(musicIndex) && mode == old(mode) && currentTime == old(currentTime)
      ensures rows[..] == old(rows[..])
    {
      var isPaused := playing;
      if isPaused {
        PauseMusic();
      } else {
        PlayMusic();
      }
      MarkRowsKeepsMarked(rows[..], musicIndex);
      PlayingSong();
    }

    /** prevMusic: the previous track, wrapping from the first to the last. */
    method PrevMusic()
      requires Valid()
      modifies this, rows
      ensures Valid()
      ensures musicIndex == PrevIndex(old(musicIndex), |allMusic|)
      ensures playing && mode == old(mode) && currentTime == old(currentTime)
      ensures rows[..] == MarkRows(old(rows[..]), musicIndex)
    {
      musicIndex := if musicIndex > 1 then musicIndex - 1 else |allMusic|;
      LoadMusic(musicIndex);
      PlayMusic();
      PlayingSong();
    }

    /** nextMusic: the next track, wrapping from the last to the first. */
    method NextMusic()
      requires Valid()
      modifies this, rows
      ensures Valid()
      ensures musicIndex == NextIndex(old(musicIndex), |allMusic|)
      ensures playing && mode == old(mode) && currentTime == old(currentTime)
      ensures rows[..] == MarkRows(old(rows[..]), musicIndex)
    {
      musicIndex := if musicIndex < |allMusic| then musicIndex + 1 else 1;
      LoadMusic(musicIndex);
      PlayMusic();
      PlayingSong();
    }

    /** A click in the playlist view. `clicked` is the position of the `li`
        the click fell in among the list's children, or None when it fell
        outside every `li`. */
    method OnListClick(clicked: Option<nat>)
      requires Valid()
      requires clicked.Some? ==> clicked.value < rows.Length
      modifies this, rows
      ensures Valid()
      ensures mode == old(mode) && currentTime == old(currentTime)
      ensures clicked.None? ==>
        musicIndex == old(musicIndex) && playing == old(playing) && rows[..] == old(rows[..])
      ensures clicked.Some? ==>
        musicIndex == clicked.value + 1 && playing && rows[..] == MarkRows(old(rows[..]), musicIndex)
      ensures clicked.Some? && Numbered(old(rows[..])) ==>
        forall i :: 0 <= i < rows.Length ==> (rows[i].playing <==> i == clicked.value)
    {
      if clicked.Some? {
        var index := clicked.value;
        musicIndex := index + 1;
        LoadMusic(musicIndex);
        PlayMusic();
        PlayingSong();
        if Numbered(old(rows[..])) {
          MarkRowsSelectsRow(old(rows[..]), index);
        }
      }
    }

    /** toggleRepeatMode: one step along repeat -> repeat_one -> shuffle. */
    method ToggleRepeatMode()
      requires Valid()
      modifies this`mode
      ensures Valid()
      ensures mode == Toggle(old(mode))
    {
      match mode
      case Repeat => mode := RepeatOne;
      case RepeatOne => mode := Shuffle;
      case Shuffle => mode := Repeat;
    }

    /** handleSongEnded. `draws` are the values Math.random returns, in
        order; only shuffle consumes them. */
    method HandleSongEnded(draws: seq<real>)
      requires Valid() && ValidDraws(draws)
      requires mode == Shuffle ==> LandsElsewhere(draws, |allMusic|, musicIndex)
      modifies this, rows
      ensures Valid()
      ensures mode == old(mode) && playing
      ensures old(mode) == Repeat ==>
        musicIndex == NextIndex(old(musicIndex), |allMusic|) && currentTime == old(currentTime) &&
        rows[..] == MarkRows(old(rows[..]), musicIndex)
      ensures old(mode) == RepeatOne ==>
        musicIndex == old(musicIndex) && currentTime == 0.0 && rows[..] == old(rows[..])
      ensures old(mode) == Shuffle ==>
        musicIndex == ShufflePick(draws, |allMusic|, old(musicIndex)) &&
        musicIndex != old(musicIndex) && currentTime == old(currentTime) &&
        rows[..] == MarkRows(old(rows[..]), musicIndex)
    {
      match mode
      case Repeat =>
        NextMusic();
      case RepeatOne =>
        currentTime := 0.0;
        LoadMusic(musicIndex);
        PlayMusic();
      case Shuffle =>
        var randIndex := DrawOther(draws, |allMusic|, musicIndex);
        musicIndex := randIndex;
        LoadMusic(musicIndex);
        PlayMusic();
        PlayingSong();
    }
  }
}
