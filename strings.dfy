/**
 * The pieces of Swift's and Foundation's text handling that the timer and its
 * duration editor rely on: trimming whitespace, splitting on a separator,
 * `Int(String)`, and `String(format: "%02d:%02d", m, s)`.
 *
 * Trimming is over the ASCII whitespace characters (space, tab, line feed,
 * carriage return) and `Int(String)` reads an optional sign followed by ASCII
 * decimal digits.
 */
module Strings {
  import opened Wrappers

  const Int64Min: int := -0x8000_0000_0000_0000
  const Int64Max: int := 0x7fff_ffff_ffff_ffff

  // ---------------------------------------------------------------- digits

  predicate IsDigit(c: char) {
    '0' <= c <= '9'
  }

  predicate AllDigits(s: string) {
    forall i :: 0 <= i < |s| ==> IsDigit(s[i])
  }

  function DigitValue(c: char): nat
    requires IsDigit(c)
  {
    c as int - '0' as int
  }

  function DigitChar(d: nat): (c: char)
    requires d < 10
    ensures IsDigit(c) && DigitValue(c) == d
  {
    ('0' as int + d) as char
  }

  /** The decimal numeral of `n`, without leading zeros. */
  function Digits(n: nat): (s: string)
    ensures 1 <= |s| && AllDigits(s)
    ensures |s| == 1 <==> n < 10
    ensures n < 100 ==> |s| <= 2
  {
    if n < 10 then [DigitChar(n)] else Digits(n / 10) + [DigitChar(n % 10)]
  }

  /** The value of a string of decimal digits, most significant first. */
  function DigitsValue(s: string): nat
    requires AllDigits(s)
  {
    if s == [] then 0 else DigitsValue(s[..|s| - 1]) * 10 + DigitValue(s[|s| - 1])
  }

  lemma {:induction false} DigitsValueOfDigits(n: nat)
    ensures DigitsValue(Digits(n)) == n
  {
    if n >= 10 {
      var s := Digits(n);
      assert s[..|s| - 1] == Digits(n / 10);
      DigitsValueOfDigits(n / 10);
    }
  }

  /** A leading zero does not change the value of a numeral. */
  lemma {:induction false} LeadingZero(s: string)
    requires AllDigits(s)
    ensures AllDigits("0" + s) && DigitsValue("0" + s) == DigitsValue(s)
  {
    if s != [] {
      var t := "0" + s;
      assert t[..|t| - 1] == "0" + s[..|s| - 1];
      LeadingZero(s[..|s| - 1]);
    }
  }

  // ------------------------------------------------------------ formatting

  /**
   * `String(format: "%02d", n)`: the decimal numeral of `n`, zero-padded to at
   * least two characters. A negative number already has two characters with
   * its minus sign, so it is printed as is.
   */
  function Pad2(n: int): (s: string)
    ensures 2 <= |s| && (IsDigit(s[0]) || s[0] == '-') && IsDigit(s[|s| - 1])
    ensures 0 <= n < 100 ==> |s| == 2
  {
    if n < 0 then "-" + Digits(-n)
    else if n < 10 then "0" + Digits(n)
    else Digits(n)
  }

  /** What `Pad2` prints reads back as the number it was given. */
  lemma Pad2Reads(n: int)
    ensures var s := Pad2(n);
      (0 <= n ==> AllDigits(s) && DigitsValue(s) == n)
      && (n < 0 ==> s[0] == '-' && AllDigits(s[1..]) && DigitsValue(s[1..]) == -n)
  {
    if n < 0 {
      DigitsValueOfDigits(-n);
      assert Pad2(n)[1..] == Digits(-n);
    } else if n < 10 {
      DigitsValueOfDigits(n);
      LeadingZero(Digits(n));
    } else {
      DigitsValueOfDigits(n);
    }
  }

  lemma Pad2HasNoColon(n: int)
    ensures ':' !in Pad2(n)
  {
    var s := Pad2(n);
    Pad2Reads(n);
    forall i | 0 <= i < |s|
      ensures s[i] != ':'
    {
      if n < 0 && 0 < i {
        assert s[i] == s[1..][i - 1];
      }
    }
  }

  /** Swift's `/` on `Int`, which truncates toward zero. */
  function TruncDiv(a: int, b: int): (q: int)
    requires 0 < b
    ensures 0 <= a ==> 0 <= q * b <= a < q * b + b
    ensures a < 0 ==> q * b - b < a <= q * b <= 0
  {
    if 0 <= a then
      DivideNatural(a, b);
      a / b
    else
      var k := (-a) / b;
      DivideNatural(-a, b);
      assert -k * b == -(k * b);
      -k
  }

  /** Dividing a natural number leaves a remainder below the divisor. */
  lemma DivideNatural(n: int, b: int)
    requires 0 <= n && 0 < b
    ensures 0 <= n / b && 0 <= n / b * b <= n < n / b * b + b
  {
    assert n == n / b * b + n % b;
  }

  /** Swift's `%` on `Int`, whose result takes the sign of the dividend. */
  function TruncRem(a: int, b: int): (r: int)
    requires 0 < b
    ensures TruncDiv(a, b) * b + r == a
    ensures 0 <= a ==> 0 <= r < b
    ensures a < 0 ==> -b < r <= 0
  {
    a - TruncDiv(a, b) * b
  }

  /** `s` is two numerals, worth `minutes` and `seconds`, around one colon. */
  predicate FieldsRead(s: string, minutes: int, seconds: int) {
    var parts := Split(s, ':');
    |parts| == 2 && parts[0] != [] && parts[1] != []
    && AllDigits(parts[0]) && AllDigits(parts[1])
    && DigitsValue(parts[0]) == minutes && DigitsValue(parts[1]) == seconds
  }

  /** As `FieldsRead`, each numeral having at least two digits. */
  predicate ClockReads(s: string, minutes: int, seconds: int) {
    FieldsRead(s, minutes, seconds)
    && 2 <= |Split(s, ':')[0]| && 2 <= |Split(s, ':')[1]|
  }

  /**
   * `String(format: "%02d:%02d", total / 60, total % 60)`, the "mm:ss" text
   * the timer and the duration editor show for a number of seconds.
   */
  function Clock(total: int): (s: string)
    ensures 5 <= |s| && (IsDigit(s[0]) || s[0] == '-') && IsDigit(s[|s| - 1])
    ensures 0 <= total < 6000 ==> |s| == 5
  {
    Pad2(TruncDiv(total, 60)) + ":" + Pad2(TruncRem(total, 60))
  }

  /** The text of a non-negative number of seconds reads back as its minutes and seconds. */
  lemma ClockReadsBack(total: int)
    requires 0 <= total
    ensures ClockReads(Clock(total), total / 60, total % 60)
  {
    var m, sec := total / 60, total % 60;
    assert TruncDiv(total, 60) == m && TruncRem(total, 60) == sec;
    var minutes, seconds := Pad2(m), Pad2(sec);
    assert Clock(total) == minutes + [':'] + seconds;
    Pad2HasNoColon(m);
    Pad2HasNoColon(sec);
    Pad2Reads(m);
    Pad2Reads(sec);
    SplitAround(minutes, seconds, ':');
  }

  // ------------------------------------------------------------- splitting

  /**
   * `s.split(separator: sep, omittingEmptySubsequences: false)`: the pieces
   * of `s` between occurrences of `sep`, empty pieces included, so there is
   * one piece more than there are separators.
   */
  function Split(s: string, sep: char): (parts: seq<string>)
    ensures 1 <= |parts|
  {
    if s == [] then [""]
    else
      var rest := Split(s[1..], sep);
      if s[0] == sep then [""] + rest
      else [[s[0]] + rest[0]] + rest[1..]
  }

  /** There is one piece more than there are separators, and no piece holds one. */
  lemma {:induction false} SplitShape(s: string, sep: char)
    ensures |Split(s, sep)| == multiset(s)[sep] + 1
    ensures forall i :: 0 <= i < |Split(s, sep)| ==> sep !in Split(s, sep)[i]
  {
    if s != [] {
      var rest := Split(s[1..], sep);
      SplitShape(s[1..], sep);
      assert s == [s[0]] + s[1..];
      assert multiset(s)[sep] == multiset(s[1..])[sep] + (if s[0] == sep then 1 else 0);
      var parts := Split(s, sep);
      if s[0] == sep {
        assert parts == [""] + rest;
        forall i | 0 <= i < |parts|
          ensures sep !in parts[i]
        {
          if i > 0 {
            assert parts[i] == rest[i - 1];
          }
        }
      } else {
        assert parts == [[s[0]] + rest[0]] + rest[1..];
        forall i | 0 <= i < |parts|
          ensures sep !in parts[i]
        {
          if i > 0 {
            assert parts[i] == rest[i];
          } else {
            assert parts[0] == [s[0]] + rest[0];
          }
        }
      }
    }
  }

  /** Puts the pieces back together with `sep` between them. */
  function Join(parts: seq<string>, sep: char): string
    requires 1 <= |parts|
  {
    if |parts| == 1 then parts[0] else parts[0] + [sep] + Join(parts[1..], sep)
  }

  /** Splitting loses nothing: joining the pieces gives back the string. */
  lemma {:induction false} JoinSplit(s: string, sep: char)
    ensures Join(Split(s, sep), sep) == s
  {
    if s != [] {
      var rest := Split(s[1..], sep);
      JoinSplit(s[1..], sep);
      if s[0] == sep {
        assert Split(s, sep) == [""] + rest;
        JoinPrependPiece(rest, sep);
      } else {
        assert Split(s, sep) == [[s[0]] + rest[0]] + rest[1..];
        JoinPrependChar(s[0], rest, sep);
      }
      assert s == [s[0]] + s[1..];
    }
  }

  lemma JoinPrependPiece(rest: seq<string>, sep: char)
    requires 1 <= |rest|
    ensures Join([""] + rest, sep) == [sep] + Join(rest, sep)
  {
    assert ([""] + rest)[1..] == rest;
  }

  lemma JoinPrependChar(c: char, rest: seq<string>, sep: char)
    requires 1 <= |rest|
    ensures Join([[c] + rest[0]] + rest[1..], sep) == [c] + Join(rest, sep)
  {
    var parts := [[c] + rest[0]] + rest[1..];
    if |rest| > 1 {
      assert parts[1..] == rest[1..];
    }
  }

  lemma {:induction false} SplitWithoutSeparator(s: string, sep: char)
    requires sep !in s
    ensures Split(s, sep) == [s]
  {
    if s != [] {
      assert s == [s[0]] + s[1..] && s[0] != sep && sep !in s[1..];
      SplitWithoutSeparator(s[1..], sep);
    }
  }

  /** A string with exactly one separator splits into the text on each side. */
  lemma {:induction false} SplitAround(left: string, right: string, sep: char)
    requires sep !in left && sep !in right
    ensures Split(left + [sep] + right, sep) == [left, right]
  {
    var s := left + [sep] + right;
    if left == [] {
      assert s[1..] == right;
      SplitWithoutSeparator(right, sep);
    } else {
      assert s[0] == left[0] && s[0] != sep;
      assert s[1..] == left[1..] + [sep] + right;
      SplitAround(left[1..], right, sep);
      var rest := Split(s[1..], sep);
      assert rest == [left[1..], right];
      assert Split(s, sep) == [[s[0]] + rest[0]] + rest[1..];
      assert [left[0]] + left[1..] == left;
    }
  }

  // -------------------------------------------------------------- trimming

  /** ASCII stand-in for Foundation's `whitespacesAndNewlines`. */
  predicate IsWhitespace(c: char) {
    c == ' ' || c == '\t' || c == '\n' || c == '\r'
  }

  predicate AllWhitespace(s: string) {
    forall i :: 0 <= i < |s| ==> IsWhitespace(s[i])
  }

  /** Drops the leading whitespace of `s`. */
  function TrimStart(s: string): (t: string)
    ensures |t| <= |s|
    ensures t == [] || !IsWhitespace(t[0])
  {
    if s != [] && IsWhitespace(s[0]) then TrimStart(s[1..]) else s
  }

  /** Drops the trailing whitespace of `s`. */
  function TrimEnd(s: string): (t: string)
    ensures |t| <= |s|
    ensures t == [] || !IsWhitespace(t[|t| - 1])
  {
    if s != [] && IsWhitespace(s[|s| - 1]) then TrimEnd(s[..|s| - 1]) else s
  }

  /** What `TrimStart` keeps is a suffix of `s`, and what it drops is whitespace. */
  lemma {:induction false} TrimStartCuts(s: string)
    ensures var t := TrimStart(s);
      t == s[|s| - |t|..] && AllWhitespace(s[..|s| - |t|])
  {
    if s != [] && IsWhitespace(s[0]) {
      TrimStartCuts(s[1..]);
      var t := TrimStart(s);
      assert s[|s| - |t|..] == s[1..][|s| - 1 - |t|..];
      forall i | 0 <= i < |s| - |t|
        ensures IsWhitespace(s[i])
      {
        if i > 0 {
          assert s[i] == s[1..][..|s| - 1 - |t|][i - 1];
        }
      }
    }
  }

  /** What `TrimEnd` keeps is a prefix of `s`, and what it drops is whitespace. */
  lemma {:induction false} TrimEndCuts(s: string)
    ensures var t := TrimEnd(s);
      t == s[..|t|] && AllWhitespace(s[|t|..])
  {
    if s != [] && IsWhitespace(s[|s| - 1]) {
      var init := s[..|s| - 1];
      TrimEndCuts(init);
      var t := TrimEnd(s);
      assert init[..|t|] == s[..|t|];
      forall i | |t| <= i < |s|
        ensures IsWhitespace(s[i])
      {
        if i < |s| - 1 {
          assert s[i] == init[|t|..][i - |t|];
        }
      }
    }
  }

  /**
   * `s.trimmingCharacters(in: .whitespacesAndNewlines)`: the middle of `s`
   * that neither starts nor ends with whitespace, all of what was cut off
   * being whitespace.
   */
  function Trim(s: string): (t: string)
    ensures t == [] || (!IsWhitespace(t[0]) && !IsWhitespace(t[|t| - 1]))
  {
    var front := TrimStart(s);
    TrimEndCuts(front);
    TrimEnd(front)
  }

  /** Trimming only cuts whitespace, and only from the two ends. */
  lemma TrimCutsWhitespace(s: string)
    ensures var t := Trim(s);
      exists i :: 0 <= i <= |s| - |t| && t == s[i..i + |t|]
                  && AllWhitespace(s[..i]) && AllWhitespace(s[i + |t|..])
  {
    var front := TrimStart(s);
    var t := TrimEnd(front);
    var i := |s| - |front|;
    TrimStartCuts(s);
    TrimEndCuts(front);
    assert t == s[i..i + |t|];
    assert s[i + |t|..] == front[|t|..];
    assert 0 <= i <= |s| - |t| && AllWhitespace(s[..i]) && AllWhitespace(s[i + |t|..]);
  }

  /** A text that neither starts nor ends with whitespace is its own trim. */
  lemma TrimUnpadded(s: string)
    requires s == [] || (!IsWhitespace(s[0]) && !IsWhitespace(s[|s| - 1]))
    ensures Trim(s) == s
  {
    assert TrimStart(s) == s;
  }

  /** Whitespace around a text does not survive trimming. */
  lemma {:induction false} TrimPadded(before: string, s: string, after: string)
    requires AllWhitespace(before) && AllWhitespace(after)
    ensures Trim(before + s + after) == Trim(s)
  {
    TrimStartPadded(before, s + after);
    assert before + s + after == before + (s + after);
    var front := TrimStart(s);
    assert TrimStart(s + after) == front + after || (front == [] && TrimStart(s + after) == TrimStart(after)) by {
      TrimStartAppend(s, after);
    }
    if front == [] {
      TrimStartWhitespace(after);
      TrimEndWhitespace(TrimStart(s + after));
      assert TrimEnd(TrimStart(s)) == [];
    } else {
      TrimEndPadded(front, after);
    }
  }

  lemma {:induction false} TrimStartPadded(before: string, s: string)
    requires AllWhitespace(before)
    ensures TrimStart(before + s) == TrimStart(s)
  {
    if before != [] {
      var rest, u := before[1..], before + s;
      assert AllWhitespace(rest);
      assert u[0] == before[0] && IsWhitespace(u[0]) && u[1..] == rest + s;
      assert TrimStart(u) == TrimStart(u[1..]);
      TrimStartPadded(rest, s);
    } else {
      assert before + s == s;
    }
  }

  lemma {:induction false} TrimStartAppend(s: string, after: string)
    ensures TrimStart(s) != [] ==> TrimStart(s + after) == TrimStart(s) + after
    ensures TrimStart(s) == [] ==> TrimStart(s + after) == TrimStart(after)
  {
    if s == [] {
      assert s + after == after;
    } else if IsWhitespace(s[0]) {
      var u := s + after;
      assert u[0] == s[0] && u[1..] == s[1..] + after;
      assert TrimStart(u) == TrimStart(s[1..] + after);
      TrimStartAppend(s[1..], after);
    } else {
      assert (s + after)[0] == s[0];
    }
  }

  lemma {:induction false} TrimStartWhitespace(s: string)
    requires AllWhitespace(s)
    ensures TrimStart(s) == []
  {
    if s != [] {
      assert IsWhitespace(s[0]) && AllWhitespace(s[1..]);
      TrimStartWhitespace(s[1..]);
    }
  }

  lemma {:induction false} TrimEndWhitespace(s: string)
    requires AllWhitespace(s)
    ensures TrimEnd(s) == []
  {
    if s != [] {
      assert IsWhitespace(s[|s| - 1]) && AllWhitespace(s[..|s| - 1]);
      TrimEndWhitespace(s[..|s| - 1]);
    }
  }

  lemma {:induction false} TrimEndPadded(s: string, after: string)
    requires AllWhitespace(after)
    requires s != [] && !IsWhitespace(s[0])
    ensures TrimEnd(s + after) == TrimEnd(s)
  {
    if after != [] {
      var u := s + after;
      assert u[..|u| - 1] == s + after[..|after| - 1];
      TrimEndPadded(s, after[..|after| - 1]);
    } else {
      assert s + after == s;
    }
  }

  // ---------------------------------------------------------- Int(String)

  /**
   * `Int(s)`: an optional `+` or `-` followed by one or more decimal digits,
   * read as a 64-bit integer; anything else, or a value out of range, is nil.
   */
  function ParseInt(s: string): (r: Option<int>)
    ensures r.Some? ==> Int64Min <= r.value <= Int64Max
    ensures r.Some? ==> 0 < |s| && (forall i :: 0 < i < |s| ==> IsDigit(s[i]))
    ensures r.Some? ==> IsDigit(s[0]) || ((s[0] == '+' || s[0] == '-') && 2 <= |s|)
    ensures r.Some? && s[0] == '-' ==> r.value <= 0
    ensures 0 < |s| && AllDigits(s) ==>
      r == if DigitsValue(s) <= Int64Max then Some(DigitsValue(s)) else None
    ensures 2 <= |s| && (s[0] == '+' || s[0] == '-') && AllDigits(s[1..]) ==>
      var v := if s[0] == '-' then -(DigitsValue(s[1..]) as int) else DigitsValue(s[1..]);
      r == if Int64Min <= v <= Int64Max then Some(v) else None
  {
    if 0 < |s| && (s[0] == '+' || s[0] == '-') then
      var body := s[1..];
      if body != [] && AllDigits(body) then
        var v: int := if s[0] == '-' then -(DigitsValue(body) as int) else DigitsValue(body);
        if Int64Min <= v <= Int64Max then Some(v) else None
      else None
    else if 0 < |s| && AllDigits(s) then
      if DigitsValue(s) <= Int64Max then Some(DigitsValue(s)) else None
    else None
  }
}
