/**
 * time_to_seconds: a lap or race duration written "H:MM:SS.s", "M:SS.s" or as
 * a bare number of seconds, read as a number of seconds. Missing or malformed
 * input gives a missing value; the conversion never fails.
 */
module Duration {
  import opened Wrappers
  import opened Decimal

  /** The number of occurrences of c in s. */
  function Occurrences(s: string, c: char): nat {
    if s == [] then 0 else (if s[0] == c then 1 else 0) + Occurrences(s[1..], c)
  }

  /** The pieces joined back together with sep between neighbours. */
  function Join(parts: seq<string>, sep: char): string
    requires |parts| >= 1
  {
    if |parts| == 1 then parts[0] else parts[0] + [sep] + Join(parts[1..], sep)
  }

  /** str.split(sep): the pieces between occurrences of sep; there is always at least one. */
  function Split(s: string, sep: char): (parts: seq<string>)
    ensures |parts| == Occurrences(s, sep) + 1
  {
    if s == [] then [[]]
    else
      var rest := Split(s[1..], sep);
      if s[0] == sep then [[]] + rest
      else [[s[0]] + rest[0]] + rest[1..]
  }

  /** No piece contains sep, and joining the pieces gives s back. */
  lemma {:induction false} SplitPieces(s: string, sep: char)
    ensures forall i :: 0 <= i < |Split(s, sep)| ==> sep !in Split(s, sep)[i]
    ensures Join(Split(s, sep), sep) == s
  {
    if s != [] {
      var rest := Split(s[1..], sep);
      SplitPieces(s[1..], sep);
      var parts := Split(s, sep);
      if s[0] == sep {
        assert parts == [[]] + rest;
        assert parts[1..] == rest;
        assert s == [sep] + s[1..];
      } else {
        assert parts == [[s[0]] + rest[0]] + rest[1..];
        assert parts[1..] == rest[1..];
        assert s == [s[0]] + s[1..];
        if |rest| > 1 {
          assert rest == [rest[0]] + rest[1..];
          assert Join(rest, sep) == rest[0] + [sep] + Join(rest[1..], sep);
        }
        forall i | 0 <= i < |parts| ensures sep !in parts[i] {
          if i > 0 {
            assert parts[i] == rest[i];
          }
        }
      }
    }
  }

  /** Splitting a piece free of sep that is followed by sep and a tail. */
  lemma {:induction false} SplitPrefix(a: string, t: string, sep: char)
    requires sep !in a
    ensures Split(a + [sep] + t, sep) == [a] + Split(t, sep)
  {
    if a != [] {
      assert (a + [sep] + t)[1..] == a[1..] + [sep] + t;
      SplitPrefix(a[1..], t, sep);
      assert [a[0]] + a[1..] == a;
    }
  }

  /** A string with no sep splits into itself alone. */
  lemma {:induction false} SplitNoSeparator(a: string, sep: char)
    requires sep !in a
    ensures Split(a, sep) == [a]
  {
    if a != [] {
      SplitNoSeparator(a[1..], sep);
      assert [a[0]] + a[1..] == a;
    }
  }

  /** Split undoes Join when no piece contains the separator. */
  lemma {:induction false} SplitJoin(parts: seq<string>, sep: char)
    requires |parts| >= 1
    requires forall i :: 0 <= i < |parts| ==> sep !in parts[i]
    ensures Split(Join(parts, sep), sep) == parts
  {
    if |parts| == 1 {
      SplitNoSeparator(parts[0], sep);
    } else {
      SplitJoin(parts[1..], sep);
      SplitPrefix(parts[0], Join(parts[1..], sep), sep);
      assert [parts[0]] + parts[1..] == parts;
    }
  }

  /**
   * time_to_seconds(t). Three pieces are hours, minutes (integers) and seconds;
   * two pieces are minutes and seconds; any other count is float(t) of the
   * whole text. Any piece that does not parse makes the result missing.
   */
  function TimeToSeconds(t: Option<string>): (r: Option<real>)
    ensures t.None? ==> r.None?
    ensures t.Some? && Occurrences(t.value, ':') >= 3 ==> r.None?
  {
    match t
    case None => None
    case Some(s) =>
      var parts := Split(s, ':');
      if |parts| == 3 then
        match (ParseInt(parts[0]), ParseInt(parts[1]), ParseDecimal(parts[2]))
        case (Some(h), Some(m), Some(sec)) => Some(h as real * 3600.0 + m as real * 60.0 + sec)
        case _ => None
      else if |parts| == 2 then
        match (ParseInt(parts[0]), ParseDecimal(parts[1]))
        case (Some(m), Some(sec)) => Some(m as real * 60.0 + sec)
        case _ => None
      else
        if |parts| >= 4 then
          ColonRejected(s);
          ParseDecimal(s)
        else
          ParseDecimal(s)
  }

  /** A text that holds a colon is not a float literal. */
  lemma ColonRejected(s: string)
    requires Occurrences(s, ':') >= 1
    ensures ParseDecimal(s) == None
  {
    FirstIndexOfOccurring(s, ':');
    ParseDecimalRejects(s, FirstIndex(s, ':'), ':');
  }

  lemma {:induction false} FirstIndexOfOccurring(s: string, c: char)
    requires Occurrences(s, c) >= 1
    ensures FirstIndex(s, c) < |s|
  {
    if s[0] != c {
      FirstIndexOfOccurring(s[1..], c);
    }
  }

  /** "H:MM:SS.s": hours times 3600 plus minutes times 60 plus seconds. */
  lemma HoursMinutesSeconds(a: string, b: string, c: string, h: int, m: int, x: real)
    requires ':' !in a && ':' !in b && ':' !in c
    requires ParseInt(a) == Some(h) && ParseInt(b) == Some(m) && ParseDecimal(c) == Some(x)
    ensures TimeToSeconds(Some(a + ":" + b + ":" + c)) == Some(h as real * 3600.0 + m as real * 60.0 + x)
  {
    JoinThree(a, b, c);
    SplitJoin([a, b, c], ':');
  }

  lemma JoinThree(a: string, b: string, c: string)
    ensures Join([a, b, c], ':') == a + ":" + b + ":" + c
  {
    assert [a, b, c][1..] == [b, c] && [b, c][1..] == [c];
    assert Join([b, c], ':') == b + [':'] + c;
    assert Join([a, b, c], ':') == a + [':'] + (b + [':'] + c);
    assert a + [':'] + (b + [':'] + c) == a + ":" + b + ":" + c;
  }

  /** "M:SS.s": minutes times 60 plus seconds. */
  lemma MinutesSeconds(b: string, c: string, m: int, x: real)
    requires ':' !in b && ':' !in c
    requires ParseInt(b) == Some(m) && ParseDecimal(c) == Some(x)
    ensures TimeToSeconds(Some(b + ":" + c)) == Some(m as real * 60.0 + x)
  {
    assert [b, c][1..] == [c];
    assert Join([b, c], ':') == b + ":" + c;
    SplitJoin([b, c], ':');
  }

  /** A bare number is read as seconds with float(). */
  lemma BareSeconds(c: string)
    requires ':' !in c
    ensures TimeToSeconds(Some(c)) == ParseDecimal(c)
  {
    SplitNoSeparator(c, ':');
  }

  /** Three or two pieces in which some piece does not parse give a missing value. */
  lemma MalformedPieceIsMissing(s: string)
    requires var parts := Split(s, ':');
      || (|parts| == 3 && (ParseInt(parts[0]).None? || ParseInt(parts[1]).None? || ParseDecimal(parts[2]).None?))
      || (|parts| == 2 && (ParseInt(parts[0]).None? || ParseDecimal(parts[1]).None?))
    ensures TimeToSeconds(Some(s)) == None
  {
  }

  /** Appending a digit multiplies the value by ten and adds the digit. */
  lemma DigitsValueSnoc(s: string, c: char)
    requires AllDigits(s) && IsDigit(c)
    ensures AllDigits(s + [c]) && DigitsValue(s + [c]) == DigitsValue(s) * 10 + DigitValue(c)
  {
    assert (s + [c])[..|s|] == s;
  }

  /** "1" reads as the integer 1. */
  lemma ReadOne()
    ensures ParseInt("1") == Some(1)
  {
    assert Unsigned("1") == "1" && "1"[..0] == "";
  }

  lemma DigitsTwentyThree()
    ensures AllDigits("23") && DigitsValue("23") == 23
  {
    assert "23"[..1] == "2" && "2"[..0] == "";
  }

  lemma DigitsFourFiveSix()
    ensures AllDigits("456") && DigitsValue("456") == 456
  {
    assert "456"[..2] == "45" && "45"[..1] == "4" && "4"[..0] == "";
  }

  /** "23.456" reads as 23.456. */
  lemma ReadTwentyThreePointFour()
    ensures ParseDecimal("23.456") == Some(23.456)
  {
    DigitsTwentyThree();
    DigitsFourFiveSix();
    ParseDecimalOfParts("23", "456");
    assert Pow10(3) == 1000;
    assert DecimalValue("23", "456") == 23.456;
    assert "23" + "." + "456" == "23.456";
  }

  /** The pieces of "1:23.456" read as 1 and 23.456. */
  lemma ExampleMinutesPieces()
    ensures ParseInt("1") == Some(1)
    ensures ParseDecimal("23.456") == Some(23.456)
  {
    ReadOne();
    ReadTwentyThreePointFour();
  }

  /** time_to_seconds("1:23.456") == 83.456 */
  lemma ExampleMinutes()
    ensures TimeToSeconds(Some("1" + ":" + "23.456")) == Some(83.456)
  {
    ExampleMinutesPieces();
    MinutesSeconds("1", "23.456", 1, 23.456);
  }

  /** The minutes piece of "1:02:03.000" reads as 2. */
  lemma ExampleHoursMinutesPiece()
    ensures ParseInt("02") == Some(2)
  {
    assert Unsigned("02") == "02" && "02" == ['0'] + ['2'];
    DigitsValueSnoc([], '0');
    DigitsValueSnoc(['0'], '2');
  }

  /** The seconds piece of "1:02:03.000" reads as 3.0. */
  lemma ExampleHoursSecondsPiece()
    ensures ParseDecimal("03.000") == Some(3.0)
  {
    DigitsZeroThree();
    DigitsZeros();
    ParseDecimalOfParts("03", "000");
    assert DecimalValue("03", "000") == 3.0;
    assert "03" + "." + "000" == "03.000";
  }

  lemma DigitsZeroThree()
    ensures AllDigits("03") && DigitsValue("03") == 3
  {
    assert "03"[..1] == "0" && "0"[..0] == "";
  }

  lemma DigitsZeros()
    ensures AllDigits("000") && DigitsValue("000") == 0
  {
    assert "000"[..2] == "00" && "00"[..1] == "0" && "0"[..0] == "";
  }

  /** time_to_seconds("1:02:03.000") == 3723.0 */
  lemma ExampleHours()
    ensures TimeToSeconds(Some("1" + ":" + "02" + ":" + "03.000")) == Some(3723.0)
  {
    ReadOne();
    ExampleHoursMinutesPiece();
    ExampleHoursSecondsPiece();
    NoColons();
    HoursMinutesSeconds("1", "02", "03.000", 1, 2, 3.0);
  }

  lemma NoColons()
    ensures ':' !in "1" && ':' !in "02" && ':' !in "03.000"
  {
  }
}
