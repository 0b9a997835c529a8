/**
 * The `aotdumplog` command (NativeAOTStressLogCommand.cs): merges the stress-log entries of
 * all threads into one list ordered by timestamp and writes it to a file.
 */
module StressLog {
  import opened Wrappers
  import opened Numerics
  import opened FormatHelpers
  import opened StableSort

  /** `IRuntimeThread`, as far as the command reads it. */
  datatype Thread = Thread(id: U64)

  /** `IStressLogEntry`: one entry of one thread's log. */
  datatype Entry = Entry(message: string, timestamp: U64)

  /** `StressLogEntry`: an entry tagged with its thread. */
  datatype MergedEntry = MergedEntry(thread: Thread, message: string, timestamp: U64)

  /** The per-thread dictionary, as its enumeration: each thread once, with its entries. */
  type ThreadLogs = seq<(Thread, seq<Entry>)>

  function Tag(t: Thread, e: Entry): MergedEntry
  {
    MergedEntry(t, e.message, e.timestamp)
  }

  function TagAll(t: Thread, es: seq<Entry>): (r: seq<MergedEntry>)
    ensures |r| == |es|
    ensures forall i :: 0 <= i < |es| ==> r[i] == Tag(t, es[i])
  {
    seq(|es|, i requires 0 <= i < |es| => Tag(t, es[i]))
  }

  /** `allEntries` after the two loops: threads in enumeration order, each thread's entries
      in its own order. */
  function Merged(logs: ThreadLogs): seq<MergedEntry>
  {
    if logs == [] then []
    else
      var n := |logs| - 1;
      Merged(logs[..n]) + TagAll(logs[n].0, logs[n].1)
  }

  function TimestampKey(e: MergedEntry): int
  {
    e.timestamp
  }

  lemma MergedStep(logs: ThreadLogs, t: nat, done: seq<MergedEntry>, i: nat)
    requires t < |logs| && i < |logs[t].1|
    requires done == Merged(logs[..t]) + TagAll(logs[t].0, logs[t].1[..i])
    ensures done + [Tag(logs[t].0, logs[t].1[i])] == Merged(logs[..t]) + TagAll(logs[t].0, logs[t].1[..i + 1])
  {
    assert TagAll(logs[t].0, logs[t].1[..i + 1]) == TagAll(logs[t].0, logs[t].1[..i]) + [Tag(logs[t].0, logs[t].1[i])];
  }

  lemma MergedThreadDone(logs: ThreadLogs, t: nat)
    requires t < |logs|
    ensures Merged(logs[..t + 1]) == Merged(logs[..t]) + TagAll(logs[t].0, logs[t].1[..|logs[t].1|])
  {
    assert logs[..t + 1][..t] == logs[..t];
    assert logs[t].1[..|logs[t].1|] == logs[t].1;
  }

  /** `SortEntries`: gather every thread's entries, then order them by timestamp. */
  method SortEntries(logs: ThreadLogs) returns (sorted: seq<MergedEntry>)
    ensures sorted == OrderBy(Merged(logs), TimestampKey)
  {
    var allEntries: seq<MergedEntry> := [];
    var t := 0;
    while t < |logs|
      invariant 0 <= t <= |logs|
      invariant allEntries == Merged(logs[..t])
    {
      var (thread, entries) := logs[t];
      var i := 0;
      assert allEntries == Merged(logs[..t]) + TagAll(thread, entries[..0]);
      while i < |entries|
        invariant 0 <= i <= |entries|
        invariant allEntries == Merged(logs[..t]) + TagAll(thread, entries[..i])
      {
        MergedStep(logs, t, allEntries, i);
        allEntries := allEntries + [MergedEntry(thread, entries[i].message, entries[i].timestamp)];
        i := i + 1;
      }
      MergedThreadDone(logs, t);
      t := t + 1;
    }
    assert logs[..t] == logs;
    sorted := OrderBy(allEntries, TimestampKey);
  }

  /** The merged list holds each entry of each thread, tagged with that thread ... */
  lemma {:induction false} MergedHasEveryEntry(logs: ThreadLogs, t: nat, i: nat)
    requires t < |logs| && i < |logs[t].1|
    ensures Tag(logs[t].0, logs[t].1[i]) in Merged(logs)
  {
    var n := |logs| - 1;
    if t < n {
      MergedHasEveryEntry(logs[..n], t, i);
    } else {
      assert TagAll(logs[n].0, logs[n].1)[i] == Tag(logs[t].0, logs[t].1[i]);
    }
  }

  /** ... and nothing else: each merged entry is some thread's entry with its thread, message
      and timestamp unchanged. */
  lemma {:induction false} MergedOnlyEntries(logs: ThreadLogs, m: MergedEntry)
    requires m in Merged(logs)
    ensures exists t, i :: 0 <= t < |logs| && 0 <= i < |logs[t].1| && m == Tag(logs[t].0, logs[t].1[i])
  {
    var n := |logs| - 1;
    if m in Merged(logs[..n]) {
      MergedOnlyEntries(logs[..n], m);
      var t, i :| 0 <= t < n && 0 <= i < |logs[..n][t].1| && m == Tag(logs[..n][t].0, logs[..n][t].1[i]);
      assert logs[..n][t] == logs[t];
    } else {
      var i :| 0 <= i < |logs[n].1| && TagAll(logs[n].0, logs[n].1)[i] == m;
      assert m == Tag(logs[n].0, logs[n].1[i]);
    }
  }

  /** One merged entry per input entry. */
  lemma {:induction false} MergedLength(logs: ThreadLogs)
    ensures |Merged(logs)| == EntryCount(logs)
  {
    if logs != [] {
      MergedLength(logs[..|logs| - 1]);
    }
  }

  function EntryCount(logs: ThreadLogs): nat
  {
    if logs == [] then 0 else EntryCount(logs[..|logs| - 1]) + |logs[|logs| - 1].1|
  }

  /** The output of `SortEntries` is the merged list reordered, in nondecreasing timestamp
      order, and entries with equal timestamps keep their merged order. */
  lemma SortEntriesSpec(logs: ThreadLogs, k: int)
    ensures var out := OrderBy(Merged(logs), TimestampKey);
      && multiset(out) == multiset(Merged(logs))
      && SortedBy(out, TimestampKey)
      && WithKey(out, TimestampKey, k) == WithKey(Merged(logs), TimestampKey, k)
  {
    OrderBySortedPermutation(Merged(logs), TimestampKey);
    OrderByStable(Merged(logs), TimestampKey, k);
  }

  /** No entries in, none out. */
  lemma SortEntriesEmpty(logs: ThreadLogs)
    requires EntryCount(logs) == 0
    ensures OrderBy(Merged(logs), TimestampKey) == []
  {
    MergedLength(logs);
  }

  /** What the command produces: the console messages, the file it writes and that file's lines. */
  datatype Output = Output(console: seq<string>, fileName: string, fileLines: seq<string>)

  const Separator := "--------------------------------------------------------------------------------------"

  /** The file name: `--file` when given and non-empty, `StressLog.txt` otherwise. */
  function OutputFileName(fileName: string): string
  {
    if fileName == [] then "StressLog.txt" else fileName
  }

  /** One line of the file: thread id and timestamp in hex, left-aligned in 10 and 16 columns. */
  function EntryLine(e: MergedEntry): string
  {
    PadRight(Hex(e.thread.id), 10) + " " + PadRight(Hex(e.timestamp), 16) + " " + e.message
  }

  /** The entry lines of the file, one per merged entry, in the given order. */
  method FormatEntries(sorted: seq<MergedEntry>) returns (lines: seq<string>)
    ensures |lines| == |sorted|
    ensures forall i :: 0 <= i < |sorted| ==> lines[i] == EntryLine(sorted[i])
  {
    lines := [];
    var i := 0;
    while i < |sorted|
      invariant 0 <= i <= |sorted|
      invariant |lines| == i
      invariant forall j :: 0 <= j < i ==> lines[j] == EntryLine(sorted[j])
    {
      lines := lines + [EntryLine(sorted[i])];
      i := i + 1;
    }
  }

  /**
   * `Invoke`: the console says the log is being dumped, and that it does not exist when the
   * dictionary has no thread at all; the file gets a header, one line per sorted entry and a
   * closing separator.
   */
  method Invoke(snapshot: Option<ThreadLogs>, fileName: string) returns (out: Option<Output>)
    ensures snapshot.None? <==> out.None?
    ensures snapshot.Some? ==>
      var sorted := OrderBy(Merged(snapshot.value), TimestampKey);
      && out.value.fileName == (if fileName == [] then "StressLog.txt" else fileName)
      && out.value.console == ["Dumping StressLog..."]
           + (if |snapshot.value| == 0 then ["StressLog does not exist, no entries will be dumped."] else [])
           + ["Done"]
      && |out.value.fileLines| == |sorted| + 3
      && out.value.fileLines[..2] == ["Thread     Timestamp        Message", Separator]
      && (forall i :: 0 <= i < |sorted| ==> out.value.fileLines[i + 2] == EntryLine(sorted[i]))
      && out.value.fileLines[|sorted| + 2] == Separator
  {
    if snapshot.None? {
      return None;
    }
    var logs := snapshot.value;
    var name := OutputFileName(fileName);
    var console := ["Dumping StressLog..."];
    var lines := ["Thread     Timestamp        Message", Separator];
    if |logs| == 0 {
      console := console + ["StressLog does not exist, no entries will be dumped."];
    }
    var sorted := SortEntries(logs);
    var entries := FormatEntries(sorted);
    lines := lines + entries;
    lines := lines + [Separator];
    console := console + ["Done"];
    return Some(Output(console, name, lines));
  }
}
