/**
 * formatTime of js/script.js: a playback time in seconds shown as
 * minutes, a colon and two-digit seconds ("M:SS"). ParseTime reads such a
 * text back and is the partner that the round-trip lemma is stated with.
 */
module TimeFormat {
  import opened Wrappers

  predicate IsDigit(c: char)
  {
    '0' <= c <= '9'
  }

  predicate IsDigits(s: string)
  {
    forall i :: 0 <= i < |s| ==> IsDigit(s[i])
  }

  function DigitChar(d: int): (c: char)
    requires 0 <= d < 10
    ensures IsDigit(c) && c as int - '0' as int == d
  {
    ('0' as int + d) as char
  }

  /** Decimal text of a whole number, without leading zeros, as a template
      literal renders it. */
  function Decimal(n: nat): (s: string)
    ensures 1 <= |s| && IsDigits(s)
    ensures |s| == 1 <==> n < 10
    ensures s[0] == '0' ==> n == 0
  {
    if n < 10 then [DigitChar(n)] else Decimal(n / 10) + [DigitChar(n % 10)]
  }

  /** The number a string of decimal digits denotes. */
  function DecimalValue(s: string): nat
    requires IsDigits(s)
  {
    if s == [] then 0
    else DecimalValue(s[..|s| - 1]) * 10 + (s[|s| - 1] as int - '0' as int)
  }

  lemma {:induction false} DecimalRoundTrip(n: nat)
    ensures DecimalValue(Decimal(n)) == n
  {
    if n >= 10 {
      DecimalRoundTrip(n / 10);
      var s := Decimal(n);
      assert s[..|s| - 1] == Decimal(n / 10);
    }
  }

  /** The seconds field: a leading zero below ten. */
  function TwoDigits(sec: nat): (r: string)
    requires sec < 60
    ensures |r| == 2 && IsDigits(r) && DecimalValue(r) == sec
  {
    DecimalRoundTrip(sec);
    if sec < 10 then "0" + Decimal(sec) else Decimal(sec)
  }

  /** JavaScript's `time % 60` for a non-negative time: the remainder of
      the division truncated toward zero. */
  function RemainderOf60(t: real): real
    requires t >= 0.0
  {
    t - 60.0 * (t / 60.0).Floor as real
  }

  /** Both floors of formatTime depend only on the whole seconds of t. */
  lemma FloorSplit(t: real)
    requires t >= 0.0
    ensures (t / 60.0).Floor == t.Floor / 60
    ensures RemainderOf60(t).Floor == t.Floor % 60
  {
  }

  /** Reads "M:SS" back: minutes, a colon, exactly two digits below 60. */
  function ParseTime(s: string): Option<nat>
  {
    if |s| >= 4 && s[|s| - 3] == ':' && IsDigits(s[..|s| - 3]) && IsDigits(s[|s| - 2..])
       && DecimalValue(s[|s| - 2..]) < 60
    then Some(DecimalValue(s[..|s| - 3]) * 60 + DecimalValue(s[|s| - 2..]))
    else None
  }

  /** formatTime(time) for a non-negative time. The text always reads back
      as the whole number of seconds in t. */
  function FormatTime(t: real): (r: string)
    requires t >= 0.0
    ensures ParseTime(r) == Some(t.Floor)
    ensures r[0] == '0' ==> |r| == 4
  {
    FloorSplit(t);
    var minutes := (t / 60.0).Floor;
    var seconds := RemainderOf60(t).Floor;
    DecimalRoundTrip(minutes);
    var r := Decimal(minutes) + ":" + TwoDigits(seconds);
    assert r[..|r| - 3] == Decimal(minutes);
    assert r[|r| - 2..] == TwoDigits(seconds);
    r
  }

  /** Two times show the same text exactly when they have the same whole
      number of seconds. */
  lemma FormatTimeSameSecond(a: real, b: real)
    requires a >= 0.0 && b >= 0.0
    ensures FormatTime(a) == FormatTime(b) <==> a.Floor == b.Floor
  {
    FloorSplit(a);
    FloorSplit(b);
  }

  lemma FormatTimeExamples()
    ensures FormatTime(65.0) == "1:05"
    ensures FormatTime(5.0) == "0:05"
    ensures FormatTime(0.0) == "0:00"
    ensures FormatTime(754.5) == "12:34"
  {
    FloorSplit(65.0);
    FloorSplit(5.0);
    FloorSplit(0.0);
    FloorSplit(754.5);
  }
}
