/** The `M:SS` duration text used throughout the app: formatting whole seconds,
    parsing what a user types, estimating a joke's length from its words, and
    validating a duration field. */
module Duration {
  import opened Wrappers
  import opened Text

  // ---------------------------------------------------------------- formatting

  /** `padStart(2, '0')` */
  function PadStart2(s: string): (r: string)
    ensures |s| >= 2 ==> r == s
    ensures |s| < 2 ==> |r| == 2 && r[2 - |s|..] == s && forall i :: 0 <= i < 2 - |s| ==> r[i] == '0'
  {
    if |s| >= 2 then s else if |s| == 1 then "0" + s else "00"
  }

  /** `formatSecondsToMMSS` on whole seconds. */
  function FormatSecondsToMMSS(seconds: int): string {
    if seconds <= 0 then "0:00"
    else NatToString(seconds / 60) + ":" + PadStart2(NatToString(seconds % 60))
  }

  /** The text of `FormatSecondsToMMSS(seconds)` for a positive `seconds`: the
      minutes in decimal without leading zero, a colon, and the remaining
      seconds as exactly two digits. Zero and negative inputs give "0:00". */
  lemma FormatShape(seconds: int)
    ensures seconds <= 0 ==> FormatSecondsToMMSS(seconds) == "0:00"
    ensures seconds > 0 ==>
      var r := FormatSecondsToMMSS(seconds);
      var i := IndexOf(r, ':');
      && 0 < i == |r| - 3
      && AllDigits(r[..i]) && DigitsValue(r[..i]) == seconds / 60
      && (r[0] == '0' ==> i == 1)
      && AllDigits(r[i + 1..]) && DigitsValue(r[i + 1..]) == seconds % 60
  {
    if seconds > 0 {
      var m, ss := NatToString(seconds / 60), NatToString(seconds % 60);
      var padded := PadStart2(ss);
      var r := m + ":" + padded;
      assert |ss| <= 2 by {
        if seconds % 60 >= 10 {
          assert NatToString(seconds % 60) == NatToString(seconds % 60 / 10) + [DigitChar(seconds % 60 % 10)];
        }
      }
      if |ss| == 1 {
        LeadingZero(ss);
      }
      assert r[..|m|] == m && r[|m| + 1..] == padded;
      assert ':' !in m;
      assert IndexOf(r, ':') == |m| by {
        assert r[|m|] == ':';
        assert r[..|m|] == m;
      }
      if r[0] == '0' {
        assert m[0] == '0';
        assert seconds / 60 == 0;
      }
    }
  }

  // ---------------------------------------------------------------- parsing

  const SecondsTooLarge := "Seconds must be less than 60"
  const InvalidTimeFormat := "Invalid time format. Use MM:SS, M:, or just seconds"

  /** `t` has the shape `^(\d+):(\d{0,2})$` with its colon at `i`; two seconds
      digits or fewer, none for the `M:` form. */
  predicate ColonShape(t: string, i: int) {
    && 0 < i < |t| && t[i] == ':'
    && AllDigits(t[..i]) && AllDigits(t[i + 1..]) && |t| - (i + 1) <= 2
  }

  /** `parseMMSSToSeconds`: blank text is 0, anything else is read after
      trimming. */
  function ParseMMSSToSeconds(input: string): (r: Result<int>)
    ensures IsBlank(input) ==> r == Ok(0)
    ensures r.Ok? ==> r.value >= 0
    ensures r.Err? ==> r.message == SecondsTooLarge || r.message == InvalidTimeFormat
  {
    if IsBlank(input) then Ok(0) else ParseTrimmed(Trim(input))
  }

  /** The trimmed text: bare digits are seconds, `M:SS` (one or two seconds
      digits, below 60) and `M:` are minutes and seconds; anything else is the
      error the parser throws. */
  function ParseTrimmed(t: string): (r: Result<int>)
    ensures r.Ok? ==> r.value >= 0
    ensures r.Err? ==> r.message == SecondsTooLarge || r.message == InvalidTimeFormat
  {
    if AllDigits(t) then Ok(DigitsValue(t))
    else
      var i := IndexOf(t, ':');
      if i > 0 && AllDigits(t[..i]) then
        var secondsText := t[i + 1..];
        if 1 <= |secondsText| <= 2 && AllDigits(secondsText) then
          var minutes, seconds := DigitsValue(t[..i]), DigitsValue(secondsText);
          if seconds >= 60 then Err(SecondsTooLarge) else Ok(minutes * 60 + seconds)
        else if secondsText == "" then Ok(DigitsValue(t[..i]) * 60)
        else Err(InvalidTimeFormat)
      else Err(InvalidTimeFormat)
  }

  /** The colon of a colon-shaped text is its first one. */
  lemma ColonShapeFirst(t: string, i: int)
    requires ColonShape(t, i)
    ensures IndexOf(t, ':') == i && !AllDigits(t)
  {
    assert ':' !in t[..i];
    assert t[..i + 1] == t[..i] + [':'];
    assert ':' in t[..i + 1];
  }

  /** A colon-shaped text parses to its minutes and seconds, or to the seconds
      error when the seconds reach 60. */
  lemma ParseColon(t: string, i: int)
    requires ColonShape(t, i)
    ensures var seconds := DigitsValue(t[i + 1..]);
      ParseTrimmed(t) == if seconds >= 60 then Err(SecondsTooLarge) else Ok(DigitsValue(t[..i]) * 60 + seconds)
  {
    ColonShapeFirst(t, i);
  }

  /** Only bare digits and colon shapes with seconds below 60 parse. */
  lemma ParseOkShape(t: string)
    requires ParseTrimmed(t).Ok? && !AllDigits(t)
    ensures var i := IndexOf(t, ':');
      ColonShape(t, i) && DigitsValue(t[i + 1..]) < 60
  {
  }

  /** Parsing succeeds exactly on blank text, bare digits, and colon shapes
      whose seconds are below 60; bare digits are read as seconds. */
  lemma ParseOkIff(input: string)
    ensures !IsBlank(input) && AllDigits(Trim(input)) ==> ParseMMSSToSeconds(input) == Ok(DigitsValue(Trim(input)))
    ensures ParseMMSSToSeconds(input).Ok? <==>
      || IsBlank(input)
      || AllDigits(Trim(input))
      || exists i :: ColonShape(Trim(input), i) && DigitsValue(Trim(input)[i + 1..]) < 60
  {
    ParseTrimmedOkIff(Trim(input));
  }

  /** Which message a failure carries: the seconds error for a colon shape
      whose seconds reach 60, the format error for text that is neither bare
      digits nor colon-shaped. */
  lemma ParseErrorMessage(input: string)
    ensures var t := Trim(input);
      !IsBlank(input) && !AllDigits(t) && (forall i :: !ColonShape(t, i)) ==>
        ParseMMSSToSeconds(input) == Err(InvalidTimeFormat)
    ensures var t := Trim(input);
      forall i :: !IsBlank(input) && ColonShape(t, i) && DigitsValue(t[i + 1..]) >= 60 ==>
        ParseMMSSToSeconds(input) == Err(SecondsTooLarge)
  {
    var t := Trim(input);
    forall i | !IsBlank(input) && ColonShape(t, i) && DigitsValue(t[i + 1..]) >= 60
      ensures ParseMMSSToSeconds(input) == Err(SecondsTooLarge)
    {
      ParseColon(t, i);
    }
    if !IsBlank(input) && !AllDigits(t) && (forall i :: !ColonShape(t, i)) {
      if ParseTrimmed(t).Ok? {
        ParseOkShape(t);
      }
      assert ParseTrimmed(t) != Err(SecondsTooLarge) by {
        if ParseTrimmed(t) == Err(SecondsTooLarge) {
          assert ColonShape(t, IndexOf(t, ':'));
        }
      }
    }
  }

  /** The same, for text already trimmed and not blank. */
  lemma ParseTrimmedOkIff(t: string)
    ensures AllDigits(t) ==> ParseTrimmed(t) == Ok(DigitsValue(t))
    ensures ParseTrimmed(t).Ok? <==>
      AllDigits(t) || exists i :: ColonShape(t, i) && DigitsValue(t[i + 1..]) < 60
  {
    if exists i :: ColonShape(t, i) && DigitsValue(t[i + 1..]) < 60 {
      var i :| ColonShape(t, i) && DigitsValue(t[i + 1..]) < 60;
      ParseColon(t, i);
    }
    if !AllDigits(t) && ParseTrimmed(t).Ok? {
      ParseOkShape(t);
    }
  }

  /** Text of the form the formatter writes (minutes, a colon, two seconds
      digits below 60) parses back to its minutes and seconds. */
  lemma ParseClockText(r: string, i: int)
    requires 0 < i == |r| - 3 && r[i] == ':'
    requires AllDigits(r[..i]) && AllDigits(r[i + 1..]) && DigitsValue(r[i + 1..]) < 60
    ensures ParseMMSSToSeconds(r) == Ok(DigitsValue(r[..i]) * 60 + DigitsValue(r[i + 1..]))
  {
    assert r[0] == r[..i][0] && r[|r| - 1] == r[i + 1..][1];
    TrimNoSpace(r);
    ParseColon(r, i);
  }

  /** Formatting and parsing again gives back any non-negative whole number of
      seconds; negative values come back as 0. */
  lemma ParseFormatRoundTrip(seconds: int)
    ensures ParseMMSSToSeconds(FormatSecondsToMMSS(seconds)) == Ok(if seconds > 0 then seconds else 0)
  {
    FormatShape(seconds);
    if seconds <= 0 {
      var r := FormatSecondsToMMSS(seconds);
      assert r == "0:00";
      ParseZeroClock(r);
    } else {
      var r := FormatSecondsToMMSS(seconds);
      ParseFormattedClock(r, IndexOf(r, ':'), seconds);
    }
  }

  /** "0:00" reads as no time at all. */
  lemma ParseZeroClock(r: string)
    requires |r| == 4 && r[0] == '0' && r[1] == ':' && r[2] == '0' && r[3] == '0'
    ensures ParseMMSSToSeconds(r) == Ok(0)
  {
    var minutes, secs := r[..1], r[2..];
    assert minutes == [r[0]] && AllDigits(minutes) && DigitsValue(minutes) == 0;
    assert secs == [r[2], r[3]] && AllDigits(secs);
    assert secs[..1] == [r[2]];
    assert DigitsValue(secs) == 0;
    ParseClockText(r, 1);
  }

  /** Text shaped as the formatter writes it for `seconds` parses back to `seconds`. */
  lemma ParseFormattedClock(r: string, i: int, seconds: int)
    requires seconds > 0
    requires 0 < i == |r| - 3 && r[i] == ':'
    requires AllDigits(r[..i]) && DigitsValue(r[..i]) == seconds / 60
    requires AllDigits(r[i + 1..]) && DigitsValue(r[i + 1..]) == seconds % 60
    ensures ParseMMSSToSeconds(r) == Ok(seconds)
  {
    var minutes, secs := seconds / 60, seconds % 60;
    assert minutes * 60 + secs == seconds;
    ParseClockText(r, i);
  }

  // ---------------------------------------------------------------- estimating

  /** `Math.round`: the nearest integer, halves rounding up. */
  function Round(x: real): int {
    (x + 0.5).Floor
  }

  const SpeakingWordsPerMinute := 130

  /** Starts a word: a non-space character at the start or after a space. */
  predicate WordStart(s: string, i: int)
    requires 0 <= i < |s|
  {
    !IsSpace(s[i]) && (i == 0 || IsSpace(s[i - 1]))
  }

  /** The number of non-empty pieces `text.trim().split(/\s+/)` yields: the
      maximal runs of non-space characters. */
  function WordCount(s: string): nat {
    if s == [] then 0
    else WordCount(s[..|s| - 1]) + if WordStart(s, |s| - 1) then 1 else 0
  }

  /** A text has no words exactly when it is blank. */
  lemma {:induction false} WordCountZeroIff(s: string)
    ensures WordCount(s) == 0 <==> IsBlank(s)
    decreases |s|
  {
    BlankIffAllSpace(s);
    if s != [] {
      var init := s[..|s| - 1];
      WordCountZeroIff(init);
      BlankIffAllSpace(init);
      assert forall i :: 0 <= i < |init| ==> init[i] == s[i];
      if IsBlank(init) && !IsSpace(s[|s| - 1]) && |s| > 1 {
        assert IsSpace(init[|s| - 2]);
      }
    }
  }

  /** The seconds `estimateDurationFromText` gives for `words` words. */
  function SecondsForWords(words: nat): int {
    Round(words as real / SpeakingWordsPerMinute as real * 60.0)
  }

  /** `estimateDurationFromText` */
  function EstimateDurationFromText(text: string): int {
    if IsBlank(text) then 0 else SecondsForWords(WordCount(Trim(text)))
  }

  /** The estimate is the nearest whole number of seconds to words * 60 / 130,
      which never lies halfway between two integers; in integers it is
      (12 * words + 13) div 26. */
  lemma SecondsForWordsNearest(words: nat)
    ensures SecondsForWords(words) == (12 * words + 13) / 26
    ensures var exact := words as real * 60.0 / 130.0;
      exact - 0.5 < SecondsForWords(words) as real < exact + 0.5
  {
    var x := words as real / 130.0 * 60.0;
    assert x + 0.5 == (12 * words + 13) as real / 26.0;
    var q := (12 * words + 13) / 26;
    var rem := (12 * words + 13) % 26;
    assert (12 * words + 13) as real == 26.0 * q as real + rem as real;
    assert q as real <= x + 0.5 < q as real + 1.0;
    assert rem != 0 by {
      assert (12 * words + 13) % 2 == 1;
    }
  }

  /** More words never give a shorter estimate. */
  lemma EstimateMonotone(a: nat, b: nat)
    requires a <= b
    ensures SecondsForWords(a) <= SecondsForWords(b)
  {
    SecondsForWordsNearest(a);
    SecondsForWordsNearest(b);
  }

  /** Blank text is estimated at 0 seconds; any other text has a word, and
      its estimate is positive exactly when it has two words or more. */
  lemma EstimateFacts(text: string)
    ensures IsBlank(text) ==> EstimateDurationFromText(text) == 0
    ensures !IsBlank(text) ==> EstimateDurationFromText(text) == (12 * WordCount(Trim(text)) + 13) / 26 >= 0
    ensures !IsBlank(text) ==> WordCount(Trim(text)) >= 1
    ensures !IsBlank(text) ==> (EstimateDurationFromText(text) > 0 <==> WordCount(Trim(text)) >= 2)
  {
    if !IsBlank(text) {
      SecondsForWordsNearest(WordCount(Trim(text)));
      var t := Trim(text);
      WordCountZeroIff(t);
      assert !IsBlank(t) by {
        assert t != [] && !IsSpace(t[0]);
        BlankIffAllSpace(t);
      }
    }
  }

  // ---------------------------------------------------------------- validation

  const DurationMustBePositive := "Duration must be positive"
  const DurationUnderAnHour := "Duration must be less than 1 hour"

  /** `validateDurationInput`: `None` for an acceptable field, otherwise the
      message to show. */
  function ValidateDurationInput(input: string): Option<string> {
    if IsBlank(input) then None
    else
      match ParseMMSSToSeconds(input)
      case Err(message) => Some(message)
      case Ok(seconds) =>
        if seconds < 0 then Some(DurationMustBePositive)
        else if seconds > 3600 then Some(DurationUnderAnHour)
        else None
  }

  /** The field is accepted exactly when it is blank or parses to at most an
      hour; a parse failure shows the parser's message, an over-long duration
      the one-hour message, and the "positive" message never appears. */
  lemma ValidateDurationFacts(input: string)
    ensures var r := ValidateDurationInput(input);
      var p := ParseMMSSToSeconds(input);
      && (r == None <==> IsBlank(input) || (p.Ok? && p.value <= 3600))
      && (!IsBlank(input) && p.Err? ==> r == Some(p.message))
      && (p.Ok? && p.value > 3600 ==> r == Some(DurationUnderAnHour))
      && r != Some(DurationMustBePositive)
  {
    ParseOkIff(input);
  }
}
