/**
 * The logic of `ContentView.swift` around the timer: reading and writing
 * durations as text, the per-mode duration editors, and the status chip.
 *
 * The view was written against a revision of the timer whose durations are
 * in seconds and which has a `breakTime` mode. Here the editors work on the
 * modes of `Timer`, a chip's "break" is a short or a long break, the model's
 * current duration is handed in as a number of seconds, and the call
 * `model.updateDuration(for:seconds:)` is recorded in the ghost log `updates`.
 */
module ContentView {
  import opened Wrappers
  import opened Strings
  import opened Timer

  /** The longest duration an editor accepts: twelve hours. */
  const MaxSeconds: int := 12 * 60 * 60

  // --------------------------------------------------------- duration text

  /**
   * Reads a duration typed by the user: surrounding whitespace is ignored,
   * then either "minutes:seconds" or a bare number of minutes. The result,
   * in seconds, must lie between one second and twelve hours; everything
   * else is nil.
   */
  function ParseDuration(text: string): (r: Option<int>)
    ensures r.Some? ==> 1 <= r.value <= MaxSeconds
    ensures Trim(text) == [] ==> r == None
  {
    var trimmed := Trim(text);
    if trimmed == [] then None
    else
      var total := if ':' in trimmed then ParseMinutesSeconds(trimmed) else ParseMinutes(trimmed);
      if total.Some? && 1 <= total.value <= MaxSeconds then total else None
  }

  /**
   * "minutes:seconds": exactly two fields around one colon, both integers,
   * the seconds below a minute.
   */
  function ParseMinutesSeconds(text: string): (r: Option<int>)
    ensures r.Some? ==> multiset(text)[':'] == 1
    ensures r.Some? ==> var parts := Split(text, ':');
      |parts| == 2 && ParseInt(parts[0]).Some? && ParseInt(parts[1]).Some?
      && 0 <= ParseInt(parts[1]).value < 60
      && r.value == ParseInt(parts[0]).value * 60 + ParseInt(parts[1]).value
    ensures var parts := Split(text, ':');
      (|parts| == 2 && ParseInt(parts[0]).Some? && ParseInt(parts[1]).Some?
       && 0 <= ParseInt(parts[1]).value < 60) ==> r.Some?
  {
    var parts := Split(text, ':');
    SplitShape(text, ':');
    if |parts| == 2 then
      var minutes, seconds := ParseInt(parts[0]), ParseInt(parts[1]);
      if minutes.Some? && seconds.Some? && 0 <= seconds.value < 60
      then Some(minutes.value * 60 + seconds.value)
      else None
    else None
  }

  /** A bare integer, read as minutes. */
  function ParseMinutes(text: string): (r: Option<int>)
    ensures r.Some? ==> r.value % 60 == 0 && ParseInt(text) == Some(r.value / 60)
    ensures r.None? ==> ParseInt(text).None?
  {
    var minutes := ParseInt(text);
    if minutes.Some? then Some(minutes.value * 60) else None
  }

  /**
   * A number of seconds as "mm:ss", negative numbers shown as zero: the
   * minutes and the seconds below a minute, each with at least two digits.
   */
  function FormattedDuration(seconds: int): (s: string)
    ensures seconds <= 0 ==> s == "00:00"
    ensures 0 <= seconds < 6000 ==> |s| == 5
  {
    Clock(Max(0, seconds))
  }

  /** The "mm:ss" summary on a duration editor's row, without clamping. */
  function Summary(seconds: int): (s: string)
    ensures 0 <= seconds ==> s == FormattedDuration(seconds)
    ensures seconds < 0 ==> s != FormattedDuration(seconds)
  {
    Clock(seconds)
  }

  /**
   * Two numerals around one colon read as minutes and seconds, when the
   * seconds are below a minute and the total is in range.
   */
  lemma ParseFields(s: string, minutes: nat, seconds: nat)
    requires FieldsRead(s, minutes, seconds)
    requires minutes <= Int64Max && seconds <= Int64Max
    requires !IsWhitespace(s[0]) && !IsWhitespace(s[|s| - 1])
    ensures ParseDuration(s) ==
      if seconds < 60 && 1 <= minutes * 60 + seconds <= MaxSeconds then Some(minutes * 60 + seconds)
      else None
  {
    TrimUnpadded(s);
    var parts := Split(s, ':');
    SplitShape(s, ':');
    assert ':' in multiset(s);
    assert ParseInt(parts[0]) == Some(minutes);
    assert ParseInt(parts[1]) == Some(seconds);
  }

  /** A bare numeral reads as that many minutes, up to twelve hours. */
  lemma ParseNumeral(s: string)
    requires s != [] && AllDigits(s)
    ensures ParseDuration(s) ==
      if 1 <= DigitsValue(s) <= 720 then Some(DigitsValue(s) * 60) else None
  {
    assert !IsWhitespace(s[0]) && !IsWhitespace(s[|s| - 1]);
    TrimUnpadded(s);
    NoColonInDigits(s);
    if DigitsValue(s) > Int64Max {
      assert ParseInt(s).None?;
    }
  }

  /** A numeral holds no colon. */
  lemma NoColonInDigits(s: string)
    requires AllDigits(s)
    ensures ':' !in s
  {
    forall i | 0 <= i < |s|
      ensures s[i] != ':'
    {
      assert IsDigit(s[i]);
    }
  }

  /** Every duration the editors accept reads back from its own text. */
  lemma ParseFormattedDuration(seconds: int)
    requires 1 <= seconds <= MaxSeconds
    ensures ParseDuration(FormattedDuration(seconds)) == Some(seconds)
  {
    var s := FormattedDuration(seconds);
    FormattedDurationReads(seconds, s);
    ParseClock(s, seconds);
  }

  /** The text of a positive duration holds its minutes and seconds, with no whitespace at the ends. */
  lemma FormattedDurationReads(seconds: int, s: string)
    requires 1 <= seconds && s == FormattedDuration(seconds)
    ensures ClockReads(s, seconds / 60, seconds % 60)
    ensures !IsWhitespace(s[0]) && !IsWhitespace(s[|s| - 1])
  {
    assert s == Clock(seconds);
    ClockReadsBack(seconds);
  }

  /** A clock text of an accepted duration reads back as that duration. */
  lemma ParseClock(s: string, total: int)
    requires 1 <= total <= MaxSeconds
    requires ClockReads(s, total / 60, total % 60)
    requires !IsWhitespace(s[0]) && !IsWhitespace(s[|s| - 1])
    ensures ParseDuration(s) == Some(total)
  {
    var minutes, seconds := total / 60, total % 60;
    assert minutes * 60 + seconds == total;
    ParseFields(s, minutes, seconds);
  }

  /** A bare number is read as minutes, up to twelve hours. */
  lemma ParseBareMinutes(minutes: nat)
    ensures ParseDuration(Digits(minutes)) == if 1 <= minutes <= 720 then Some(minutes * 60) else None
  {
    DigitsValueOfDigits(minutes);
    ParseNumeral(Digits(minutes));
  }

  /** Whitespace before and after a duration does not change how it reads. */
  lemma ParseIgnoresPadding(before: string, text: string, after: string)
    requires AllWhitespace(before) && AllWhitespace(after)
    ensures ParseDuration(before + text + after) == ParseDuration(text)
  {
    TrimPadded(before, text, after);
  }

  /** A numeral in range is an integer, and holds no colon. */
  lemma NumeralIsInt(s: string)
    requires s != [] && AllDigits(s) && DigitsValue(s) <= Int64Max
    ensures ParseInt(s) == Some(DigitsValue(s)) && ':' !in s
  {
    NoColonInDigits(s);
  }

  /** Bare minutes between whitespace read as those minutes. */
  lemma ParsePaddedMinutes(before: string, minutes: nat, after: string, t: string)
    requires AllWhitespace(before) && AllWhitespace(after)
    requires t == before + Digits(minutes) + after
    ensures ParseDuration(t) == if 1 <= minutes <= 720 then Some(minutes * 60) else None
  {
    ParseIgnoresPadding(before, Digits(minutes), after);
    ParseBareMinutes(minutes);
  }

  /**
   * A sign followed by a numeral, without a colon, is read as that many
   * minutes, negative after a minus, and kept when it is 1 to 720.
   */
  lemma ParseSignedNumeral(sign: char, d: string, t: string)
    requires sign == '+' || sign == '-'
    requires d != [] && AllDigits(d) && t == [sign] + d
    ensures var v := if sign == '-' then -(DigitsValue(d) as int) else DigitsValue(d);
      ParseDuration(t) == if 1 <= v <= 720 then Some(v * 60) else None
  {
    NoColonInDigits(d);
    assert t[1..] == d && t[|t| - 1] == d[|d| - 1] && IsDigit(d[|d| - 1]);
    assert ':' !in t;
    TrimUnpadded(t);
  }

  /** Without a colon, a text that starts with neither a sign nor a digit is rejected. */
  lemma ParseBareJunk(s: string)
    requires s != [] && ':' !in s && !IsWhitespace(s[0]) && !IsWhitespace(s[|s| - 1])
    requires !IsDigit(s[0]) && s[0] != '+' && s[0] != '-'
    ensures ParseDuration(s) == None
  {
    TrimUnpadded(s);
  }

  /**
   * Any two integer fields around one colon, signs included, read as
   * `minutes * 60 + seconds` exactly when the seconds are 0 to 59 and the
   * total is in range.
   */
  lemma ParseIntFields(a: string, b: string, t: string)
    requires t == a + ":" + b && ':' !in a && ':' !in b
    requires ParseInt(a).Some? && ParseInt(b).Some?
    ensures var minutes, seconds := ParseInt(a).value, ParseInt(b).value;
      ParseDuration(t) ==
        if 0 <= seconds < 60 && 1 <= minutes * 60 + seconds <= MaxSeconds then Some(minutes * 60 + seconds)
        else None
  {
    IntFieldsShape(a, b, t);
  }

  /** Two integer fields around a colon trim to themselves and split back into the two fields. */
  lemma IntFieldsShape(a: string, b: string, t: string)
    requires t == a + ":" + b && ':' !in a && ':' !in b
    requires ParseInt(a).Some? && ParseInt(b).Some?
    ensures Trim(t) == t && ':' in t && Split(t, ':') == [a, b]
  {
    assert t == a + [':'] + b;
    assert t[0] == a[0] && t[|t| - 1] == b[|b| - 1] && t[|a|] == ':';
    assert IsDigit(b[|b| - 1]);
    TrimUnpadded(t);
    SplitAround(a, b, ':');
  }

  /** A text with more than one colon is not a duration. */
  lemma ParseManyColons(s: string)
    requires s != [] && !IsWhitespace(s[0]) && !IsWhitespace(s[|s| - 1])
    requires multiset(s)[':'] >= 2
    ensures ParseDuration(s) == None
  {
    TrimUnpadded(s);
    SplitShape(s, ':');
  }

  /** A colon with nothing on one side of it is not a duration. */
  lemma ParseEmptyField(a: string, b: string, t: string)
    requires t == a + ":" + b && ':' !in a && ':' !in b && (a == [] || b == [])
    requires !IsWhitespace(t[0]) && !IsWhitespace(t[|t| - 1])
    ensures ParseDuration(t) == None
  {
    TrimUnpadded(t);
    assert t == a + [':'] + b;
    SplitAround(a, b, ':');
  }

  // ----------------------------------------------------------- status chip

  datatype Chip = Chip(icon: string, title: string)

  /** The mode the view calls `breakTime`. */
  predicate IsBreak(mode: Mode) {
    mode == ShortBreak || mode == LongBreak
  }

  /** The penguin and caption that sum up the timer's state. */
  function StatusChip(state: State, mode: Mode): (chip: Chip)
    ensures chip.title == "Focus" <==> state == Running && mode == Focus
    ensures chip.title == "Break" <==> state == Running && mode != Focus
    ensures chip.title == "Paused" <==> state == Paused
    ensures chip.title == "Break ready" <==> state == Idle && IsBreak(mode)
    ensures chip.title == "Idle" <==> state == Idle && !IsBreak(mode)
    ensures chip.icon == "BreakPenguin" <==> chip.title == "Break" || chip.title == "Break ready"
    ensures chip.title == "Focus" ==> chip.icon == "FocusPenguin"
    ensures chip.title == "Paused" ==> chip.icon == "PausePenguin"
    ensures chip.title == "Idle" ==> chip.icon == "SleepingPenguin"
  {
    match state
    case Running =>
      if mode == Focus then Chip("FocusPenguin", "Focus") else Chip("BreakPenguin", "Break")
    case Paused => Chip("PausePenguin", "Paused")
    case Idle =>
      if IsBreak(mode) then Chip("BreakPenguin", "Break ready") else Chip("SleepingPenguin", "Idle")
  }

  /** The chip names a running interval exactly when the menu bar counts down. */
  lemma ChipAgreesWithMenuBar(timer: TimerModel)
    ensures var title := StatusChip(timer.state, timer.currentMode).title;
      (title == "Focus" || title == "Break") <==> timer.MenuBarLabel() != IdleLabel
  {
  }

  /** While running, the menu bar's countdown reads back as the time left. */
  lemma MenuBarCountdownReads(timer: TimerModel)
    requires timer.state == Running && 1 <= timer.remaining <= MaxSeconds
    ensures ParseDuration(timer.MenuBarLabel()[2..]) == Some(timer.remaining)
  {
    ParseFormattedDuration(timer.remaining);
  }

  // ------------------------------------------------------ duration editors

  /** A call the view makes to `model.updateDuration(for:seconds:)`. */
  datatype DurationUpdate = DurationUpdate(mode: Mode, seconds: int)

  /** The view's editor state: which editor is open, the texts, the rejects. */
  class DurationEditors {
    var expandedEditor: Option<Mode>
    var editorText: map<Mode, string>
    var invalidEditors: set<Mode>
    /** The duration updates sent to the timer. */
    ghost var updates: seq<DurationUpdate>

    constructor ()
      ensures expandedEditor == None && editorText == map[] && invalidEditors == {}
      ensures updates == []
    {
      expandedEditor := None;
      editorText := map[];
      invalidEditors := {};
      updates := [];
    }

    /**
     * Closes the editor of `mode` if it is open; otherwise opens it on the
     * text of the model's current duration `currentSeconds`, clearing its
     * invalid mark.
     */
    method ToggleEditor(mode: Mode, currentSeconds: int)
      modifies this
      ensures old(expandedEditor) == Some(mode) ==>
        expandedEditor == None && editorText == old(editorText)
        && invalidEditors == old(invalidEditors)
      ensures old(expandedEditor) != Some(mode) ==>
        expandedEditor == Some(mode)
        && editorText == old(editorText)[mode := FormattedDuration(currentSeconds)]
        && invalidEditors == old(invalidEditors) - {mode}
      ensures updates == old(updates)
    {
      if expandedEditor == Some(mode) {
        expandedEditor := None;
      } else {
        expandedEditor := Some(mode);
        editorText := editorText[mode := FormattedDuration(currentSeconds)];
        invalidEditors := invalidEditors - {mode};
      }
    }

    /**
     * Commits the text of `mode`'s editor: a text that does not parse marks
     * the editor invalid and changes nothing else; one that does is sent to
     * the model and shown again in its canonical "mm:ss" form.
     */
    method ApplyDuration(mode: Mode)
      modifies this
      ensures var text := if mode in old(editorText) then old(editorText)[mode] else "";
        (ParseDuration(text).None? ==>
          invalidEditors == old(invalidEditors) + {mode}
          && editorText == old(editorText) && updates == old(updates))
        && (ParseDuration(text).Some? ==>
          invalidEditors == old(invalidEditors) - {mode}
          && updates == old(updates) + [DurationUpdate(mode, ParseDuration(text).value)]
          && editorText == old(editorText)[mode := FormattedDuration(ParseDuration(text).value)])
      ensures mode !in invalidEditors ==>
        mode in editorText && 0 < |updates| && updates[|updates| - 1].mode == mode
        && ParseDuration(editorText[mode]) == Some(updates[|updates| - 1].seconds)
      ensures expandedEditor == old(expandedEditor)
    {
      var text := if mode in editorText then editorText[mode] else "";
      var parsed := ParseDuration(text);
      if parsed.None? {
        invalidEditors := invalidEditors + {mode};
      } else {
        Commit(mode, parsed.value);
      }
    }

    /**
     * The accepted branch of `ApplyDuration`: `seconds` goes to the model and
     * the editor shows it as "mm:ss", a text that reads back as `seconds`.
     */
    method Commit(mode: Mode, seconds: int)
      requires 1 <= seconds <= MaxSeconds
      modifies this
      ensures invalidEditors == old(invalidEditors) - {mode}
      ensures updates == old(updates) + [DurationUpdate(mode, seconds)]
      ensures editorText == old(editorText)[mode := FormattedDuration(seconds)]
      ensures ParseDuration(editorText[mode]) == Some(seconds)
      ensures expandedEditor == old(expandedEditor)
    {
      invalidEditors := invalidEditors - {mode};
      updates := updates + [DurationUpdate(mode, seconds)];
      editorText := editorText[mode := FormattedDuration(seconds)];
      ParseFormattedDuration(seconds);
    }

    /** Fills every editor with the text of the model's duration `durationOf(m)`. */
    method RefreshEditorTexts(durationOf: Mode -> int)
      modifies this
      ensures forall m: Mode :: m in editorText && editorText[m] == FormattedDuration(durationOf(m))
      ensures expandedEditor == old(expandedEditor) && invalidEditors == old(invalidEditors)
      ensures updates == old(updates)
    {
      for i := 0 to |AllModes|
        invariant forall j :: 0 <= j < i ==>
          AllModes[j] in editorText && editorText[AllModes[j]] == FormattedDuration(durationOf(AllModes[j]))
        invariant expandedEditor == old(expandedEditor) && invalidEditors == old(invalidEditors)
        invariant updates == old(updates)
      {
        var mode := AllModes[i];
        editorText := editorText[mode := FormattedDuration(durationOf(mode))];
      }
      forall m: Mode
        ensures m in editorText && editorText[m] == FormattedDuration(durationOf(m))
      {
        var j := ModeIndex(m);
      }
    }
  }
}
