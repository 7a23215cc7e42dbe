/**
 * What the connector derives from the filter: the sizes of the trace
 * without the excluded regions (calculateFilteredSizes) and the text of
 * the filter file (createFilterFile).
 */
module FilterOutput {
  import opened Util
  import opened Text
  import opened DataCenter
  import opened Filtering

  /** The display names of the excluded region rows, in list order. */
  function ExcludedNames(fs: seq<RegionRow>, ex: seq<nat>): seq<string>
    requires InRange(fs, ex)
  {
    seq(|ex|, k requires 0 <= k < |ex| => fs[ex[k]].region)
  }

  /** The bytes of one region's per-process entries. */
  function EntriesBytes(entries: ProcessBuffers): nat
  {
    if |entries| == 0 then 0 else EntriesBytes(entries[..|entries| - 1]) + Bytes(entries[|entries| - 1].1)
  }

  /** The bytes process q writes for one region. */
  function EntriesBytesOf(entries: ProcessBuffers, q: nat): nat
  {
    if |entries| == 0 then 0
    else EntriesBytesOf(entries[..|entries| - 1], q) + (if entries[|entries| - 1].0 == q then Bytes(entries[|entries| - 1].1) else 0)
  }

  /** The trace size of the regions whose name no excluded row shows. */
  function KeptTrace(buffer: BufferData, names: seq<string>): nat
  {
    if |buffer| == 0 then 0
    else KeptTrace(buffer[..|buffer| - 1], names) +
         (if buffer[|buffer| - 1].0 in names then 0 else EntriesBytes(buffer[|buffer| - 1].1))
  }

  /** The bytes process q writes for the regions whose name no excluded row shows. */
  function ProcBytes(buffer: BufferData, names: seq<string>, q: nat): nat
  {
    if |buffer| == 0 then 0
    else ProcBytes(buffer[..|buffer| - 1], names, q) +
         (if buffer[|buffer| - 1].0 in names then 0 else EntriesBytesOf(buffer[|buffer| - 1].1, q))
  }

  /** Position p of a list that grows on demand: 0 beyond its end. */
  function At(list: seq<nat>, p: nat): nat
  {
    if p < |list| then list[p] else 0
  }

  /** procList after one entry: grown with zeros to reach position q, then q credited with b. */
  function Credit(list: seq<nat>, q: nat, b: nat): (r: seq<nat>)
    ensures |r| == if q < |list| then |list| else q + 1
  {
    var grown := if q < |list| then list else list + Zeros(q + 1 - |list|);
    grown[q := grown[q] + b]
  }

  /** procList after the entries of one region. */
  function CreditEntries(list: seq<nat>, entries: ProcessBuffers): seq<nat>
  {
    if |entries| == 0 then list
    else
      var e := entries[|entries| - 1];
      Credit(CreditEntries(list, entries[..|entries| - 1]), e.0, Bytes(e.1))
  }

  /** procList after every region whose name no excluded row shows. */
  function ProcTable(buffer: BufferData, names: seq<string>): seq<nat>
  {
    if |buffer| == 0 then []
    else
      var t := ProcTable(buffer[..|buffer| - 1], names);
      if buffer[|buffer| - 1].0 in names then t else CreditEntries(t, buffer[|buffer| - 1].1)
  }

  /** The filtered largest buffer: the largest entry of procList, 0 when it is empty. */
  function FilteredMaxBuf(buffer: BufferData, names: seq<string>): nat
  {
    MaxOf(ProcTable(buffer, names))
  }

  lemma CreditAt(list: seq<nat>, q: nat, b: nat, p: nat)
    ensures At(Credit(list, q, b), p) == At(list, p) + (if p == q then b else 0)
  {
  }

  lemma {:induction false} CreditEntriesAt(list: seq<nat>, entries: ProcessBuffers, p: nat)
    ensures At(CreditEntries(list, entries), p) == At(list, p) + EntriesBytesOf(entries, p)
  {
    if |entries| > 0 {
      var e := entries[|entries| - 1];
      CreditEntriesAt(list, entries[..|entries| - 1], p);
      CreditAt(CreditEntries(list, entries[..|entries| - 1]), e.0, Bytes(e.1), p);
    }
  }

  /** Every position of procList holds what that process writes for the kept regions, and beyond it nothing is written. */
  lemma {:induction false} ProcTableAt(buffer: BufferData, names: seq<string>, p: nat)
    ensures At(ProcTable(buffer, names), p) == ProcBytes(buffer, names, p)
  {
    if |buffer| > 0 {
      ProcTableAt(buffer[..|buffer| - 1], names, p);
      if buffer[|buffer| - 1].0 !in names {
        CreditEntriesAt(ProcTable(buffer[..|buffer| - 1], names), buffer[|buffer| - 1].1, p);
      }
    }
  }

  lemma {:induction false} SumPadded(list: seq<nat>, k: nat)
    ensures Sum(list + Zeros(k)) == Sum(list)
  {
    if k > 0 {
      assert Zeros(k) == Zeros(k - 1) + [0];
      assert list + Zeros(k) == (list + Zeros(k - 1)) + [0];
      SumAppend(list + Zeros(k - 1), 0);
      SumPadded(list, k - 1);
    } else {
      assert list + Zeros(k) == list;
    }
  }

  lemma CreditSum(list: seq<nat>, q: nat, b: nat)
    ensures Sum(Credit(list, q, b)) == Sum(list) + b
  {
    var grown := if q < |list| then list else list + Zeros(q + 1 - |list|);
    if q >= |list| {
      SumPadded(list, q + 1 - |list|);
    }
    SumUpdate(grown, q, b);
  }

  lemma {:induction false} CreditEntriesSum(list: seq<nat>, entries: ProcessBuffers)
    ensures Sum(CreditEntries(list, entries)) == Sum(list) + EntriesBytes(entries)
  {
    if |entries| > 0 {
      var e := entries[|entries| - 1];
      CreditEntriesSum(list, entries[..|entries| - 1]);
      CreditSum(CreditEntries(list, entries[..|entries| - 1]), e.0, Bytes(e.1));
    }
  }

  /** The per-process table adds up to the filtered trace size. */
  lemma {:induction false} ProcTableSum(buffer: BufferData, names: seq<string>)
    ensures Sum(ProcTable(buffer, names)) == KeptTrace(buffer, names)
  {
    if |buffer| > 0 {
      ProcTableSum(buffer[..|buffer| - 1], names);
      if buffer[|buffer| - 1].0 !in names {
        CreditEntriesSum(ProcTable(buffer[..|buffer| - 1], names), buffer[|buffer| - 1].1);
      }
    }
  }

  /**
   * The filtered largest buffer is what the busiest process writes for the
   * kept regions, and at most the filtered trace size.
   */
  lemma FilteredMaxBufCharacterized(buffer: BufferData, names: seq<string>)
    ensures forall q: nat :: ProcBytes(buffer, names, q) <= FilteredMaxBuf(buffer, names)
    ensures FilteredMaxBuf(buffer, names) == 0 ||
      exists q: nat :: ProcBytes(buffer, names, q) == FilteredMaxBuf(buffer, names)
    ensures FilteredMaxBuf(buffer, names) <= KeptTrace(buffer, names)
  {
    var t := ProcTable(buffer, names);
    forall q: nat
      ensures ProcBytes(buffer, names, q) <= FilteredMaxBuf(buffer, names)
    {
      ProcTableAt(buffer, names, q);
    }
    if FilteredMaxBuf(buffer, names) != 0 {
      var q :| 0 <= q < |t| && t[q] == MaxOf(t);
      ProcTableAt(buffer, names, q);
    }
    MaxOfAtMostSum(t);
    ProcTableSum(buffer, names);
  }

  /** Excluding more names never makes the trace larger. */
  lemma {:induction false} KeptTraceShrinks(buffer: BufferData, names: seq<string>, more: seq<string>)
    requires forall n :: n in names ==> n in more
    ensures KeptTrace(buffer, more) <= KeptTrace(buffer, names)
  {
    if |buffer| > 0 {
      KeptTraceShrinks(buffer[..|buffer| - 1], names, more);
    }
  }

  /** Excluding more names never makes any process write more. */
  lemma {:induction false} ProcBytesShrink(buffer: BufferData, names: seq<string>, more: seq<string>, q: nat)
    requires forall n :: n in names ==> n in more
    ensures ProcBytes(buffer, more, q) <= ProcBytes(buffer, names, q)
  {
    if |buffer| > 0 {
      ProcBytesShrink(buffer[..|buffer| - 1], names, more, q);
    }
  }

  /** Excluding more names never makes the largest buffer larger. */
  lemma FilteredMaxBufShrinks(buffer: BufferData, names: seq<string>, more: seq<string>)
    requires forall n :: n in names ==> n in more
    ensures FilteredMaxBuf(buffer, more) <= FilteredMaxBuf(buffer, names)
  {
    FilteredMaxBufCharacterized(buffer, more);
    FilteredMaxBufCharacterized(buffer, names);
    if FilteredMaxBuf(buffer, more) != 0 {
      var q: nat :| ProcBytes(buffer, more, q) == FilteredMaxBuf(buffer, more);
      ProcBytesShrink(buffer, names, more, q);
    }
  }

  /** The bytes of every region in the buffer. */
  function TotalBytes(buffer: BufferData): nat
  {
    if |buffer| == 0 then 0 else TotalBytes(buffer[..|buffer| - 1]) + EntriesBytes(buffer[|buffer| - 1].1)
  }

  /** With nothing excluded, the filtered trace is the whole buffer. */
  lemma {:induction false} NothingExcludedKeepsAll(buffer: BufferData)
    ensures KeptTrace(buffer, []) == TotalBytes(buffer)
  {
    if |buffer| > 0 {
      NothingExcludedKeepsAll(buffer[..|buffer| - 1]);
    }
  }

  // ---------------------------------------------------------------------------
  // The filter file.

  const FILE_HEAD: seq<string> := ["#this file is generated bei scoreQt", "SCOREP_REGION_NAMES_BEGIN", "EXCLUDE MANGLED"]
  const FILE_END: string := "SCOREP_REGION_NAMES_END"

  /** The lines of the filter file: the header, a tab and the mangled name per excluded row, the end marker. */
  function FilterLines(fs: seq<RegionRow>, ex: seq<nat>): seq<string>
    requires InRange(fs, ex)
  {
    FILE_HEAD + seq(|ex|, k requires 0 <= k < |ex| => "\t" + fs[ex[k]].mangledName) + [FILE_END]
  }

  /** The text written: every line ended by a line feed. */
  function FilterFile(fs: seq<RegionRow>, ex: seq<nat>): string
    requires InRange(fs, ex)
  {
    JoinLines(FilterLines(fs, ex))
  }

  /** Joining one more line appends it and its line feed. */
  lemma {:induction false} JoinLinesAppend(lines: seq<string>, line: string)
    ensures JoinLines(lines + [line]) == JoinLines(lines) + line + "\n"
  {
    if |lines| > 0 {
      assert (lines + [line])[1..] == lines[1..] + [line];
      JoinLinesAppend(lines[1..], line);
    } else {
      assert lines + [line] == [line];
    }
  }

  /**
   * Reading the file back line by line gives the header, one line per
   * excluded row in list order holding its mangled name after a tab, and
   * the end marker.
   */
  lemma FilterFileReadsBack(fs: seq<RegionRow>, ex: seq<nat>)
    requires InRange(fs, ex) && forall k :: 0 <= k < |ex| ==> NoLineFeed(fs[ex[k]].mangledName)
    ensures var lines := SplitLines(FilterFile(fs, ex));
      |lines| == |ex| + 5 && lines[..3] == FILE_HEAD && lines[|ex| + 3] == FILE_END && lines[|ex| + 4] == "" &&
      forall k :: 0 <= k < |ex| ==> lines[k + 3] == "\t" + fs[ex[k]].mangledName
  {
    var lines := FilterLines(fs, ex);
    forall k | 0 <= k < |lines|
      ensures NoLineFeed(lines[k])
    {
      if 3 <= k < |ex| + 3 {
        assert lines[k] == "\t" + fs[ex[k - 3]].mangledName;
      }
    }
    SplitJoinLines(lines);
  }
}
