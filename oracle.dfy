/**
 * The dialogue with the external size estimator (otf2-estimator) in
 * calculate_event_sizes: the request text listing every registered event,
 * and the decoding of its answer, one "<name> <bytes>" line per event.
 * Writing and reading the temporary files and running the program are not
 * modelled; the answer is a parameter.
 */
module EventOracle {
  import opened Util
  import opened Text
  import opened ScoreEvent

  // ---------------------------------------------------------------------------
  // The request.

  /** One "get" line per registered event, in the registry's (name) order. */
  function GetLines(c: Catalog): (lines: seq<string>)
    ensures |lines| == |c|
    ensures forall i :: 0 <= i < |c| ==> lines[i] == "get " + c[i].name
  {
    if |c| == 0 then [] else ["get " + c[0].name] + GetLines(c[1..])
  }

  function RequestLines(regionNum: nat, metricNum: nat, c: Catalog): seq<string>
  {
    ["set Region " + NatToString(regionNum), "set Metric " + NatToString(metricNum)] + GetLines(c) + ["exit"]
  }

  /** The text written to the estimator's input, every line ended by a line feed. */
  function Request(regionNum: nat, metricNum: nat, c: Catalog): (text: string)
    ensures |text| >= 5 && text[|text| - 5..] == "exit\n"
  {
    var lines := RequestLines(regionNum, metricNum, c);
    JoinLinesSnoc(lines[..|lines| - 1], "exit");
    assert lines == lines[..|lines| - 1] + ["exit"];
    JoinLines(lines)
  }

  lemma NatToStringNoLineFeed(n: nat)
    ensures NoLineFeed(NatToString(n))
  {
  }

  /**
   * Read line by line, the request sets the region and metric numbers,
   * asks for every registered event in order and ends with "exit".
   */
  lemma RequestReadsBack(regionNum: nat, metricNum: nat, c: Catalog)
    requires forall i :: 0 <= i < |c| ==> NoLineFeed(c[i].name)
    ensures var lines := SplitLines(Request(regionNum, metricNum, c));
      |lines| == |c| + 4 && lines[0] == "set Region " + NatToString(regionNum)
      && lines[1] == "set Metric " + NatToString(metricNum)
      && (forall i :: 0 <= i < |c| ==> lines[i + 2] == "get " + c[i].name)
      && lines[|c| + 2] == "exit" && lines[|c| + 3] == ""
  {
    var ls := RequestLines(regionNum, metricNum, c);
    assert Request(regionNum, metricNum, c) == JoinLines(ls);
    NatToStringNoLineFeed(regionNum);
    NatToStringNoLineFeed(metricNum);
    assert NoLineFeed("set Region " + NatToString(regionNum));
    assert NoLineFeed("set Metric " + NatToString(metricNum));
    forall k | 0 <= k < |ls|
      ensures NoLineFeed(ls[k])
    {
      if 2 <= k < |c| + 2 {
        assert ls[k] == "get " + c[k - 2].name;
      }
    }
    SplitJoinLines(ls);
  }

  // ---------------------------------------------------------------------------
  // strtoul(text, &end, 0) as glibc implements it for unsigned long (64 bits).

  const ULONG_MAX: nat := 0x1_0000_0000_0000_0000 - 1

  /** isspace in the C locale. */
  predicate IsSpace(c: char)
  {
    c == ' ' || '\t' <= c <= '\r'
  }

  /** The value of c as a digit of any base up to 36; 36 when c is no digit. */
  function DigitOf(c: char): (d: nat)
    ensures d <= 36
  {
    if '0' <= c <= '9' then c as int - '0' as int
    else if 'a' <= c <= 'z' then c as int - 'a' as int + 10
    else if 'A' <= c <= 'Z' then c as int - 'A' as int + 10
    else 36
  }

  /** The length of the longest prefix of s made of digits of base. */
  function DigitRun(s: string, base: nat): (n: nat)
    ensures n <= |s|
    ensures forall i :: 0 <= i < n ==> DigitOf(s[i]) < base
    ensures n < |s| ==> DigitOf(s[n]) >= base
  {
    if |s| == 0 || DigitOf(s[0]) >= base then 0 else 1 + DigitRun(s[1..], base)
  }

  /** The value of a string of digits of base, most significant first. */
  function RunValue(s: string, base: nat): nat
    requires forall i :: 0 <= i < |s| ==> DigitOf(s[i]) < base
  {
    if |s| == 0 then 0 else RunValue(s[..|s| - 1], base) * base + DigitOf(s[|s| - 1])
  }

  /** The index after the leading white space. */
  function SkipSpace(s: string, i: nat): (j: nat)
    requires i <= |s|
    ensures i <= j <= |s|
    ensures forall k :: i <= k < j ==> IsSpace(s[k])
    ensures j < |s| ==> !IsSpace(s[j])
    decreases |s| - i
  {
    if i < |s| && IsSpace(s[i]) then SkipSpace(s, i + 1) else i
  }

  /** The converted value and the index endptr is left at. */
  datatype Conversion = Conversion(value: nat, end: nat)

  /**
   * What precedes the digits: the sign (at index sign, if any), and the
   * base the prefix selects with the index its digits start at.
   */
  datatype Prefix = Prefix(negative: bool, afterSign: nat, base: nat, start: nat)

  /** White space, an optional sign, then "0x"/"0X" for base 16, "0" for base 8, or base 10. */
  function ScanPrefix(s: string): (p: Prefix)
    ensures p.afterSign <= p.start <= |s| && p.base in {8, 10, 16}
    ensures p.base == 16 <==> p.start == p.afterSign + 2
  {
    var i := SkipSpace(s, 0);
    var negative := i < |s| && s[i] == '-';
    var j := if i < |s| && (s[i] == '-' || s[i] == '+') then i + 1 else i;
    if j + 1 < |s| && s[j] == '0' && (s[j + 1] == 'x' || s[j + 1] == 'X') then Prefix(negative, j, 16, j + 2)
    else if j < |s| && s[j] == '0' then Prefix(negative, j, 8, j)
    else Prefix(negative, j, 10, j)
  }

  /**
   * strtoul with base 0 on a text without NUL. Without digits nothing is
   * converted and endptr is the start, except after "0x" where it is the
   * "x". A value beyond ULONG_MAX gives ULONG_MAX; a minus sign negates
   * modulo 2^64.
   */
  function StrToUL(s: string): (r: Conversion)
    ensures r.end <= |s| && r.value <= ULONG_MAX
  {
    var p := ScanPrefix(s);
    var n := DigitRun(s[p.start..], p.base);
    if n == 0 then
      Conversion(0, if p.base == 16 then p.afterSign + 1 else 0)
    else
      assert forall i :: 0 <= i < n ==> s[p.start..p.start + n][i] == s[p.start..][i];
      Convert(RunValue(s[p.start..p.start + n], p.base), p.negative, p.start + n)
  }

  /** The overflow and sign rules applied to the digits' value. */
  function Convert(v: nat, negative: bool, end: nat): (r: Conversion)
    ensures r.value <= ULONG_MAX && r.end == end
    ensures v <= ULONG_MAX && !negative ==> r.value == v
  {
    if v > ULONG_MAX then Conversion(ULONG_MAX, end)
    else if negative && v > 0 then Conversion(ULONG_MAX + 1 - v, end)
    else Conversion(v, end)
  }

  /** What c_str() shows of a string: everything before the first NUL. */
  function CString(s: string): (c: string)
    ensures |c| <= |s| && c == s[..|c|] && '\0' !in c
    ensures |c| < |s| ==> s[|c|] == '\0'
  {
    if |s| == 0 || s[0] == '\0' then "" else [s[0]] + CString(s[1..])
  }

  /** The number of a line is accepted when the conversion stops at its end (*end_pos == 0). */
  function ParseNumber(number: string): (r: Option<nat>)
    ensures r.Some? ==> r.value <= ULONG_MAX
  {
    var c := CString(number);
    var conv := StrToUL(c);
    if conv.end == |c| then Some(conv.value) else None
  }

  lemma DigitOfDecimal(c: char)
    requires IsDigit(c)
    ensures DigitOf(c) == DigitValue(c) < 10
  {
  }

  lemma {:induction false} RunValueDecimal(s: string)
    requires forall i :: 0 <= i < |s| ==> IsDigit(s[i])
    ensures forall i :: 0 <= i < |s| ==> DigitOf(s[i]) < 10
    ensures RunValue(s, 10) == DecimalValue(s)
  {
    if |s| > 0 {
      RunValueDecimal(s[..|s| - 1]);
      DigitOfDecimal(s[|s| - 1]);
    }
  }

  /** Every rendered number below 2^64 is read back as itself. */
  lemma ParseRenderedNumber(n: nat)
    requires n <= ULONG_MAX
    ensures ParseNumber(NatToString(n)) == Some(n)
  {
    if n == 0 {
      ParseZero();
    } else {
      var s := NatToString(n);
      assert CString(s) == s by {
        assert '\0' !in s;
      }
      assert StrToUL(s) == Conversion(n, |s|) by {
        RunValueDecimal(s);
        DecimalValueOfNatToString(n);
        assert SkipSpace(s, 0) == 0;
        assert s[0..] == s;
        assert DigitRun(s, 10) == |s|;
        assert s[0..|s|] == s;
      }
    }
  }

  /** "0" is read as an octal zero. */
  lemma ParseZero()
    ensures ParseNumber("0") == Some(0)
  {
    var t := "0";
    assert CString(t) == t by {
      assert t[1..] == "";
    }
    assert StrToUL(t) == Conversion(0, 1) by {
      assert SkipSpace(t, 0) == 0;
      assert ScanPrefix(t) == Prefix(false, 0, 8, 0);
      assert t[0..] == t && t[1..] == "";
      assert DigitRun(t, 8) == 1;
      assert t[0..1] == t && t[..0] == "";
      assert RunValue(t, 8) == 0;
    }
  }

  /** "0x" and hexadecimal digits. */
  lemma ParseHexadecimal()
    ensures ParseNumber("0x1F") == Some(31)
  {
    var t := "0x1F";
    assert CString(t) == t by {
      assert t[1..] == "x1F" && "x1F"[1..] == "1F" && "1F"[1..] == "F" && "F"[1..] == "";
    }
    assert StrToUL(t) == Conversion(31, 4) by {
      assert SkipSpace(t, 0) == 0;
      assert ScanPrefix(t) == Prefix(false, 0, 16, 2);
      assert DigitRun(t[2..], 16) == 2 by {
        assert t[2..] == "1F" && "1F"[1..] == "F" && "F"[1..] == "";
      }
      assert RunValue(t[2..4], 16) == 31 by {
        assert t[2..4] == "1F" && "1F"[..1] == "1" && "1"[..0] == "";
      }
    }
  }

  /** A leading zero makes the number octal. */
  lemma ParseOctal()
    ensures ParseNumber("010") == Some(8)
  {
    var t := "010";
    assert CString(t) == t by {
      assert t[1..] == "10" && "10"[1..] == "0" && "0"[1..] == "";
    }
    assert StrToUL(t) == Conversion(8, 3) by {
      assert SkipSpace(t, 0) == 0;
      assert ScanPrefix(t) == Prefix(false, 0, 8, 0);
      assert DigitRun(t[0..], 8) == 3 by {
        assert t[0..] == t && t[1..] == "10" && "10"[1..] == "0" && "0"[1..] == "";
      }
      assert RunValue(t[0..3], 8) == 8 by {
        assert t[0..3] == t && t[..2] == "01" && "01"[..1] == "0" && "0"[..0] == "";
      }
    }
  }

  /** An 8 is no octal digit. */
  lemma ParseBadOctal()
    ensures ParseNumber("08") == None
  {
    var t := "08";
    assert CString(t) == t by {
      assert t[1..] == "8" && "8"[1..] == "";
    }
    assert SkipSpace(t, 0) == 0;
    assert ScanPrefix(t) == Prefix(false, 0, 8, 0);
    assert t[0..] == t && t[1..] == "8";
    assert DigitRun(t, 8) == 1;
  }

  /** Leading white space is skipped. */
  lemma ParseLeadingSpace()
    ensures ParseNumber(" 7") == Some(7)
  {
    var t := " 7";
    assert CString(t) == t by {
      assert t[1..] == "7" && "7"[1..] == "";
    }
    assert SkipSpace(t, 0) == 1;
    assert ScanPrefix(t) == Prefix(false, 1, 10, 1);
    assert t[1..] == "7" && "7"[1..] == "";
    assert DigitRun("7", 10) == 1;
    assert t[1..2] == "7" && "7"[..0] == "";
    assert RunValue("7", 10) == 7;
  }

  /** A minus sign negates modulo 2^64. */
  lemma ParseMinus()
    ensures ParseNumber("-1") == Some(ULONG_MAX)
  {
    var t := "-1";
    assert CString(t) == t by {
      assert t[1..] == "1" && "1"[1..] == "";
    }
    assert SkipSpace(t, 0) == 0;
    assert ScanPrefix(t) == Prefix(true, 1, 10, 1);
    assert t[1..] == "1" && "1"[1..] == "";
    assert DigitRun("1", 10) == 1;
    assert t[1..2] == "1" && "1"[..0] == "";
    assert RunValue("1", 10) == 1;
  }

  /** Trailing characters are refused. */
  lemma ParseTrailing()
    ensures ParseNumber("12ab") == None
  {
    var t := "12ab";
    assert CString(t) == t by {
      assert t[1..] == "2ab" && "2ab"[1..] == "ab" && "ab"[1..] == "b" && "b"[1..] == "";
    }
    assert SkipSpace(t, 0) == 0;
    assert ScanPrefix(t) == Prefix(false, 0, 10, 0);
    assert t[0..] == t && t[1..] == "2ab" && "2ab"[1..] == "ab";
    assert DigitRun(t, 10) == 2;
  }

  /** "0x" or a sign without digits is refused; an empty number reads as 0. */
  lemma ParseNoDigits()
    ensures ParseNumber("0x") == None
    ensures ParseNumber("+") == None
    ensures ParseNumber("") == Some(0)
  {
    assert CString("0x") == "0x" by {
      assert "0x"[1..] == "x" && "x"[1..] == "";
    }
    assert SkipSpace("0x", 0) == 0;
    assert ScanPrefix("0x") == Prefix(false, 0, 16, 2);
    assert "0x"[2..] == "";
    assert CString("+") == "+" by {
      assert "+"[1..] == "";
    }
    assert SkipSpace("+", 0) == 0;
    assert ScanPrefix("+") == Prefix(false, 1, 10, 1);
    assert "+"[1..] == "";
  }

  /** The number ends at the first NUL character. */
  lemma ParseStopsAtNul()
    ensures ParseNumber("5\0junk") == Some(5)
  {
    assert CString("5\0junk") == "5" by {
      assert "5\0junk"[1..] == "\0junk";
    }
    assert SkipSpace("5", 0) == 0;
    assert ScanPrefix("5") == Prefix(false, 0, 10, 0);
    assert "5"[0..] == "5" && "5"[1..] == "";
    assert DigitRun("5", 10) == 1;
    assert "5"[0..1] == "5" && "5"[..0] == "";
    assert RunValue("5", 10) == 5;
  }

  // ---------------------------------------------------------------------------
  // The answer.

  /**
   * One answer line: the name is everything before the last blank (it may
   * contain blanks), the number everything after it. A line without a
   * blank, or whose number is not accepted, is skipped.
   */
  function DecodeLine(line: string): (r: Option<(string, nat)>)
    ensures r.Some? ==> exists number :: (line == r.value.0 + " " + number && ' ' !in number
                                          && ParseNumber(number) == Some(r.value.1))
    ensures r.None? ==> ' ' !in line || ParseNumber(line[LastIndexOf(line, ' ') + 1..]).None?
  {
    var pos := LastIndexOf(line, ' ');
    if pos < 0 then None
    else
      var number := line[pos + 1..];
      assert line == line[..pos] + " " + number;
      match ParseNumber(number)
      case None => None
      case Some(v) => Some((line[..pos], v))
  }

  /** A line written as "<name> <number>" is decoded to that name and number. */
  lemma DecodeWrittenLine(name: string, n: nat)
    requires n <= ULONG_MAX
    ensures DecodeLine(name + " " + NatToString(n)) == Some((name, n))
  {
    var digits := NatToString(n);
    var line := name + " " + digits;
    LastBlank(name, digits);
    assert line[..|name|] == name;
    assert line[|name| + 1..] == digits;
    ParseRenderedNumber(n);
  }

  /** The last blank of "<name> <digits>" is the separator. */
  lemma LastBlank(name: string, digits: string)
    requires forall i :: 0 <= i < |digits| ==> IsDigit(digits[i])
    ensures LastIndexOf(name + " " + digits, ' ') == |name|
  {
    assert name + " " + digits == name + [' '] + digits;
    LastIndexOfBefore(name, ' ', digits);
  }

  /** The last c of a + [c] + b, when b holds no c, is the one after a. */
  lemma {:induction false} LastIndexOfBefore(a: string, c: char, b: string)
    requires forall i :: 0 <= i < |b| ==> b[i] != c
    ensures LastIndexOf(a + [c] + b, c) == |a|
    decreases |b|
  {
    var s := a + [c] + b;
    if |b| > 0 {
      assert s[|s| - 1] == b[|b| - 1];
      assert s[..|s| - 1] == a + [c] + b[..|b| - 1];
      LastIndexOfBefore(a, c, b[..|b| - 1]);
    }
  }

  /** The effect of one answer line: the event's size, truncated to 32 bits. */
  function ApplyLine(c: Catalog, line: string): Catalog
  {
    match DecodeLine(line)
    case None => c
    case Some((name, value)) => SetEventSize(c, name, value % UINT32)
  }

  /** The registry after the answer's lines, applied in order. */
  function ApplyResponse(c: Catalog, lines: seq<string>): (r: Catalog)
    ensures |r| == |c| && forall i :: 0 <= i < |c| ==> r[i].name == c[i].name && r[i].kind == c[i].kind
    decreases |lines|
  {
    if |lines| == 0 then c else ApplyLine(ApplyResponse(c, lines[..|lines| - 1]), lines[|lines| - 1])
  }

  /** The answer keeps the registry in name order. */
  lemma {:induction false} ApplyResponseKeepsOrder(c: Catalog, lines: seq<string>)
    requires Ordered(c)
    ensures Ordered(ApplyResponse(c, lines))
    decreases |lines|
  {
    if |lines| > 0 {
      var before := ApplyResponse(c, lines[..|lines| - 1]);
      ApplyResponseKeepsOrder(c, lines[..|lines| - 1]);
      match DecodeLine(lines[|lines| - 1])
      case None =>
      case Some((name, value)) => SetEventSizeKeepsOrder(before, name, value % UINT32);
    }
  }

  /**
   * An event no answer line names keeps its size; an event some line names
   * gets the size of the last line naming it.
   */
  lemma {:induction false} ApplyResponseSizes(c: Catalog, lines: seq<string>, name: string)
    ensures Find(ApplyResponse(c, lines), name) ==
      match LastValueFor(lines, name)
      case None => Find(c, name)
      case Some(v) => if Find(c, name).Some? then Some(SetSize(Find(c, name).value, v % UINT32)) else None
    decreases |lines|
  {
    if |lines| > 0 {
      var init := lines[..|lines| - 1];
      ApplyResponseSizes(c, init, name);
      var before := ApplyResponse(c, init);
      match DecodeLine(lines[|lines| - 1])
      case None =>
      case Some((n, value)) =>
        if n == name {
          FindShape(c, before, name);
        }
    }
  }

  /** The value of the last line decoding to the given name, if any. */
  function LastValueFor(lines: seq<string>, name: string): Option<nat>
    decreases |lines|
  {
    if |lines| == 0 then None
    else match DecodeLine(lines[|lines| - 1])
      case Some((n, v)) => if n == name then Some(v) else LastValueFor(lines[..|lines| - 1], name)
      case None => LastValueFor(lines[..|lines| - 1], name)
  }

  /** Catalogs with the same names and kinds find the same names, with the same kinds. */
  lemma FindShape(c: Catalog, d: Catalog, name: string)
    requires |d| == |c| && forall i :: 0 <= i < |c| ==> d[i].name == c[i].name && d[i].kind == c[i].kind
    ensures Find(d, name).Some? <==> Find(c, name).Some?
    ensures Find(d, name).Some? ==> Find(d, name).value.kind == Find(c, name).value.kind
    decreases |c|
  {
    if |c| > 0 && c[0].name != name {
      FindShape(c[1..], d[1..], name);
    }
  }
}
