/**
 * A group accumulates the trace buffer requirements of one group type or of
 * one region: per-process bytes, their total and the visit count
 * (SCOREP_Score_Group).
 */
module ScoreGroup {
  import opened Util
  import opened Text
  import opened ScoreTypes

  /**
   * What getGroupData / getRegionData report. maxBuf is -1 for an empty
   * group; the source then leaves the other fields unset, and start
   * discards such rows. The model fills them with "" and 0.
   */
  datatype Summary = Summary(typeName: string, maxBuf: int, visits: nat, region: string, mangledName: string)

  const ABSENT: Summary := Summary("", -1, 0, "", "")

  class Group {
    /** The group type (an index into the type list). */
    const kind: nat
    const processes: nat
    /** Bytes per process (m_max_buf). */
    const slots: array<nat>
    const name: string
    const mangledName: string
    var totalBuf: nat
    var visits: nat
    var filter: FilterState

    /** The total is the sum of the per-process slots. */
    ghost predicate Valid()
      reads this, slots
    {
      slots.Length == processes && totalBuf == Sum(slots[..])
    }

    /** A new group is empty; its mangled name is the empty string. */
    constructor (kind: nat, processes: nat, name: string)
      ensures Valid() && fresh(slots)
      ensures this.kind == kind && this.processes == processes && this.name == name && mangledName == ""
      ensures slots[..] == Zeros(processes) && totalBuf == 0 && visits == 0 && filter == UNSPECIFIED
    {
      this.kind := kind;
      this.processes := processes;
      this.name := name;
      mangledName := "";
      slots := new nat[processes](_ => 0);
      totalBuf := 0;
      visits := 0;
      filter := UNSPECIFIED;
      new;
      assert slots[..] == Zeros(processes);
      SumZeros(processes);
    }

    /** A new region group, which also records the region's mangled name. */
    constructor WithMangledName(kind: nat, processes: nat, name: string, mangledName: string)
      ensures Valid() && fresh(slots)
      ensures this.kind == kind && this.processes == processes && this.name == name
      ensures this.mangledName == mangledName
      ensures slots[..] == Zeros(processes) && totalBuf == 0 && visits == 0 && filter == UNSPECIFIED
    {
      this.kind := kind;
      this.processes := processes;
      this.name := name;
      this.mangledName := mangledName;
      slots := new nat[processes](_ => 0);
      totalBuf := 0;
      visits := 0;
      filter := UNSPECIFIED;
      new;
      assert slots[..] == Zeros(processes);
      SumZeros(processes);
    }

    /** addRegion: visits*bytes go to the total and to one process slot only. */
    method AddRegion(numberOfVisits: nat, bytesPerVisit: nat, process: nat)
      requires Valid() && process < processes
      modifies this, slots
      ensures Valid()
      ensures visits == old(visits) + numberOfVisits
      ensures totalBuf == old(totalBuf) + numberOfVisits * bytesPerVisit
      ensures slots[..] == old(slots[..])[process := old(slots[process]) + numberOfVisits * bytesPerVisit]
      ensures filter == old(filter)
    {
      SumUpdate(slots[..], process, numberOfVisits * bytesPerVisit);
      visits := visits + numberOfVisits;
      totalBuf := totalBuf + numberOfVisits * bytesPerVisit;
      slots[process] := slots[process] + numberOfVisits * bytesPerVisit;
    }

    /** The largest per-process requirement, 0 without processes. */
    method GetMaxTraceBufferSize() returns (maxBuf: nat)
      requires Valid()
      ensures maxBuf == MaxOf(slots[..])
      ensures maxBuf <= totalBuf
    {
      maxBuf := 0;
      var i := 0;
      while i < processes
        invariant i <= processes
        invariant maxBuf == MaxOf(slots[..i])
      {
        assert slots[..i + 1][..i] == slots[..i];
        maxBuf := if slots[i] > maxBuf then slots[i] else maxBuf;
        i := i + 1;
      }
      assert slots[..processes] == slots[..];
      MaxOfAtMostSum(slots[..]);
    }

    function GetTotalTraceBufferSize(): (total: nat)
      reads this, slots
      requires Valid()
      ensures total == Sum(slots[..])
    {
      totalBuf
    }

    /** getGroupData: the -1 sentinel exactly for an empty group. */
    method GetGroupData() returns (data: Summary)
      requires Valid() && kind < TYPE_NUM
      ensures data.maxBuf == -1 <==> totalBuf == 0
      ensures totalBuf == 0 ==> data == ABSENT
      ensures totalBuf > 0 ==> data == Summary(GetTypeName(kind), MaxOf(slots[..]), visits, name, "")
    {
      if totalBuf > 0 {
        var maxBuf := GetMaxTraceBufferSize();
        UnemptyHasPositiveMax();
        data := Summary(GetTypeName(kind), maxBuf, visits, name, "");
      } else {
        data := ABSENT;
      }
    }

    /** getRegionData: as getGroupData, and also the mangled name. */
    method GetRegionData() returns (data: Summary)
      requires Valid() && kind < TYPE_NUM
      ensures data.maxBuf == -1 <==> totalBuf == 0
      ensures totalBuf == 0 ==> data == ABSENT
      ensures totalBuf > 0 ==> data == Summary(GetTypeName(kind), MaxOf(slots[..]), visits, name, mangledName)
    {
      if totalBuf > 0 {
        var maxBuf := GetMaxTraceBufferSize();
        data := Summary(GetTypeName(kind), maxBuf, visits, name, mangledName);
      } else {
        data := ABSENT;
      }
    }

    /** A group with a nonzero total has a nonzero largest slot. */
    lemma UnemptyHasPositiveMax()
      requires Valid() && totalBuf > 0
      ensures MaxOf(slots[..]) > 0
    {
      if MaxOf(slots[..]) == 0 {
        MaxZeroMeansSumZero(slots[..]);
      }
    }

    /** doFilter changes the filter state and nothing else. */
    method DoFilter(state: FilterState)
      modifies this
      ensures filter == state
      ensures totalBuf == old(totalBuf) && visits == old(visits)
    {
      filter := state;
    }
  }

  lemma {:induction false} MaxZeroMeansSumZero(s: seq<nat>)
    requires MaxOf(s) == 0
    ensures Sum(s) == 0
  {
    if |s| > 0 {
      assert forall i :: 0 <= i < |s| - 1 ==> s[..|s| - 1][i] == s[i];
      MaxZeroMeansSumZero(s[..|s| - 1]);
    }
  }

  // ---------------------------------------------------------------------------
  // get_number_with_comma

  /** A number below 1000 as exactly three digits. */
  function Pad3(n: nat): (s: string)
    requires n < 1000
    ensures |s| == 3
  {
    NatToStringLength(n);
    (if n < 10 then "00" else if n < 100 then "0" else "") + NatToString(n)
  }

  lemma NatToStringLength(n: nat)
    requires n < 1000
    ensures |NatToString(n)| == if n < 10 then 1 else if n < 100 then 2 else 3
  {
    if n >= 10 {
      assert NatToString(n) == NatToString(n / 10) + [DigitChar(n % 10)];
    }
  }

  /** Decimal digits in blocks of three separated by commas. */
  function CommaString(n: nat): string
  {
    if n < 1000 then NatToString(n) else CommaString(n / 1000) + "," + Pad3(n % 1000)
  }

  function RemoveCommas(s: string): string
  {
    if |s| == 0 then "" else (if s[0] == ',' then "" else [s[0]]) + RemoveCommas(s[1..])
  }

  lemma {:induction false} RemoveCommasAppend(a: string, b: string)
    ensures RemoveCommas(a + b) == RemoveCommas(a) + RemoveCommas(b)
  {
    if |a| > 0 {
      assert (a + b)[1..] == a[1..] + b;
      RemoveCommasAppend(a[1..], b);
    } else {
      assert a + b == b;
    }
  }

  lemma {:induction false} RemoveCommasOfDigits(s: string)
    requires forall i :: 0 <= i < |s| ==> IsDigit(s[i])
    ensures RemoveCommas(s) == s
  {
    if |s| > 0 {
      RemoveCommasOfDigits(s[1..]);
    }
  }

  /** Three padded digits are the decimal rendering of n*1000+m after the digits of n. */
  lemma NatToStringBlocks(n: nat, m: nat)
    requires n > 0 && m < 1000
    ensures NatToString(n * 1000 + m) == NatToString(n) + Pad3(m)
  {
    var k := n * 1000 + m;
    var k1 := n * 100 + m / 10;
    var k2 := n * 10 + m / 100;
    DivUnique(k, 10, k1, m % 10);
    DivUnique(k1, 10, k2, (m / 10) % 10);
    DivUnique(k2, 10, n, m / 100);
    assert NatToString(k) == NatToString(k1) + [DigitChar(m % 10)];
    assert NatToString(k1) == NatToString(k2) + [DigitChar((m / 10) % 10)];
    assert NatToString(k2) == NatToString(n) + [DigitChar(m / 100)];
    NatToStringLength(m);
    if m >= 100 {
      assert NatToString(m) == NatToString(m / 10) + [DigitChar(m % 10)];
      assert NatToString(m / 10) == [DigitChar(m / 100)] + [DigitChar((m / 10) % 10)];
    } else if m >= 10 {
      assert NatToString(m) == [DigitChar(m / 10)] + [DigitChar(m % 10)];
    }
  }

  /** Dropping the commas gives the plain decimal rendering. */
  lemma {:induction false} CommaStringDigits(n: nat)
    ensures RemoveCommas(CommaString(n)) == NatToString(n)
    decreases n
  {
    if n < 1000 {
      RemoveCommasOfDigits(NatToString(n));
    } else {
      var q, m := n / 1000, n % 1000;
      var head := CommaString(q);
      assert CommaString(n) == head + "," + Pad3(m);
      CommaStringDigits(q);
      RemoveCommasAppend(head + ",", Pad3(m));
      RemoveCommasAppend(head, ",");
      assert RemoveCommas(",") == "";
      RemoveCommasOfDigits(Pad3(m));
      assert RemoveCommas(CommaString(n)) == NatToString(q) + Pad3(m);
      NatToStringBlocks(q, m);
      assert q * 1000 + m == n;
    }
  }

  lemma CommaStringExamples()
    ensures CommaString(0) == "0"
    ensures CommaString(1005) == "1,005"
    ensures CommaString(1234567) == "1,234,567"
  {
    assert NatToString(1) == "1";
    assert CommaString(1005) == "1,005" by {
      assert NatToString(5) == "5";
      assert Pad3(5) == "005";
    }
    assert Pad3(234) == "234" by {
      assert NatToString(2) == "2";
      assert NatToString(23) == NatToString(2) + [DigitChar(3)];
      assert NatToString(234) == NatToString(23) + [DigitChar(4)];
    }
    assert Pad3(567) == "567" by {
      assert NatToString(5) == "5";
      assert NatToString(56) == NatToString(5) + [DigitChar(6)];
      assert NatToString(567) == NatToString(56) + [DigitChar(7)];
    }
    assert CommaString(1234) == "1,234";
    assert CommaString(1234567) == CommaString(1234) + "," + Pad3(567);
  }

  const MAX_UINT64: nat := 0x1_0000_0000_0000_0000 - 1

  /** number without its last e base-1000 blocks. */
  function Shift(number: nat, e: nat): nat
  {
    number / Pow(1000, e)
  }

  /** A 64-bit number has at most seven base-1000 blocks. */
  lemma BlockCountBound(number: nat, e: nat)
    requires number <= MAX_UINT64 && Shift(number, e) > 0
    ensures e < 7
  {
    if e >= 7 {
      PowMonotone(1000, 7, e);
      assert Pow(1000, 7) == 1_000_000_000_000_000_000_000;
      DivUnique(number, Pow(1000, e), 0, number);
    }
  }

  lemma ShiftStep(number: nat, e: nat)
    ensures Shift(number, e) / 1000 == Shift(number, e + 1)
  {
    PowDivStep(number, 1000, e);
  }

  /** get_number_with_comma: splits into base-1000 blocks, then prints them high to low. */
  method NumberWithComma(number: nat) returns (s: string)
    requires number <= MAX_UINT64
    ensures s == CommaString(number)
  {
    if number == 0 {
      return "0";
    }
    var blocks := new nat[20];
    var exp := 0;
    var num := number;
    assert Pow(1000, 0) == 1;
    while num > 0
      invariant exp <= 7
      invariant num == Shift(number, exp)
      invariant exp > 0 ==> Shift(number, exp - 1) > 0
      invariant forall j :: 0 <= j < exp ==> blocks[j] == Shift(number, j) % 1000
      decreases num
    {
      BlockCountBound(number, exp);
      ShiftStep(number, exp);
      blocks[exp] := num % 1000;
      num := num / 1000;
      exp := exp + 1;
    }
    exp := exp - 1;
    ShiftStep(number, exp);
    s := NatToString(blocks[exp]);
    while exp > 0
      invariant 0 <= exp < 7
      invariant Shift(number, exp) > 0
      invariant s == CommaString(Shift(number, exp))
      invariant forall j :: 0 <= j <= exp ==> blocks[j] == Shift(number, j) % 1000
    {
      ShiftStep(number, exp - 1);
      s := s + "," + Pad3(blocks[exp - 1]);
      exp := exp - 1;
    }
  }
}
