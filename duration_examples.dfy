/**
 * Concrete readings of duration texts, as a user would type them into a
 * duration editor.
 */
module DurationExamples {
  import opened Wrappers
  import opened Strings
  import opened ContentView

  /** Bare minutes: "25" is 25 minutes, "720" twelve hours, "0" and "721" are out of range. */
  lemma ParseMinutesExamples()
    ensures ParseDuration("25") == Some(1500)
    ensures ParseDuration("720") == Some(43200)
    ensures ParseDuration("0") == None
    ensures ParseDuration("721") == None
  {
    assert Digits(25) == "25";
    assert Digits(720) == "720";
    assert Digits(0) == "0";
    assert Digits(721) == "721";
    ParseBareMinutes(25);
    ParseBareMinutes(720);
    ParseBareMinutes(0);
    ParseBareMinutes(721);
  }

  /** " 25\n" reads as "25". */
  lemma ParsePaddedExample()
    ensures ParseDuration(" 25\n") == Some(1500)
  {
    assert Digits(25) == "25";
    assert " 25\n" == " " + Digits(25) + "\n";
    ParsePaddedMinutes(" ", 25, "\n", " 25\n");
  }

  /** "5:30" is 330 seconds, "0:01" one second, and "5:60" has too many seconds. */
  lemma ParseFieldsExamples()
    ensures ParseDuration("5:30") == Some(330)
    ensures ParseDuration("0:01") == Some(1)
    ensures ParseDuration("5:60") == None
  {
    DigitsValueOfDigits(0);
    DigitsValueOfDigits(5);
    DigitsValueOfDigits(30);
    DigitsValueOfDigits(60);
    Pad2Reads(1);
    assert Digits(5) + ":" + Digits(30) == "5:30";
    assert Digits(0) + ":" + Pad2(1) == "0:01";
    assert Digits(5) + ":" + Digits(60) == "5:60";
    NumeralIsInt(Digits(0));
    NumeralIsInt(Digits(5));
    NumeralIsInt(Digits(30));
    NumeralIsInt(Digits(60));
    NumeralIsInt(Pad2(1));
    ParseIntFields(Digits(5), Digits(30), "5:30");
    ParseIntFields(Digits(0), Pad2(1), "0:01");
    ParseIntFields(Digits(5), Digits(60), "5:60");
  }

  /** An empty minutes or seconds field, and an empty text, are rejected. */
  lemma ParseEmptyExamples()
    ensures ParseDuration("5:") == None
    ensures ParseDuration(":30") == None
    ensures ParseDuration("") == None
  {
    assert "5:" == "5" + ":" + "";
    assert ":30" == "" + ":" + "30";
    ParseEmptyField("5", "", "5:");
    ParseEmptyField("", "30", ":30");
  }

  /** A second colon is rejected. */
  lemma ParseColonsExample()
    ensures ParseDuration("1:2:3") == None
  {
    assert multiset("1:2:3")[':'] == 2;
    ParseManyColons("1:2:3");
  }

  /** Signed fields are integers too: "-0:30" is 30 seconds. */
  lemma ParseNegativeZeroExample()
    ensures ParseDuration("-0:30") == Some(30)
  {
    assert Digits(30) == "30" && Digits(0) == "0";
    DigitsValueOfDigits(30);
    DigitsValueOfDigits(0);
    assert "-0"[1..] == "0";
    assert "-0:30" == "-0" + ":" + "30";
    assert ParseInt("-0") == Some(0) && ParseInt("30") == Some(30);
    ParseIntFields("-0", "30", "-0:30");
  }

  /** "+5" is five minutes; "-5" is out of range and "x5" is not a number. */
  lemma ParseSignedMinutesExample()
    ensures ParseDuration("+5") == Some(300)
    ensures ParseDuration("-5") == None
    ensures ParseDuration("x5") == None
  {
    assert Digits(5) == "5";
    DigitsValueOfDigits(5);
    assert "+5" == ['+'] + "5" && "-5" == ['-'] + "5";
    assert "x5"[0] == 'x' && "x5"[1] == '5';
    assert ':' !in "x5";
    ParseSignedNumeral('+', "5", "+5");
    ParseSignedNumeral('-', "5", "-5");
    ParseBareJunk("x5");
  }
}
