/**
 * The task state word of the `aotdumpasync` command (NativeAOTDumpAsync.cs): the names
 * `DumpState` writes for its bits and the completion test `IsCompleted` applies to it.
 */
module AsyncState {
  import opened Numerics

  /** The bits `DumpState` knows, in the order it writes them: the `TaskCreationOptions`,
      the `InternalTaskOptions` and the `TASK_STATE_*` flags. */
  const StateFlags: seq<(bv32, string)> := [
    (0x01, "PreferFairness"),
    (0x02, "LongRunning"),
    (0x04, "AttachedToParent"),
    (0x08, "DenyChildAttach"),
    (0x10, "HideScheduler"),
    (0x40, "RunContinuationsAsynchronously"),
    (0x0200, "ContinuationTask"),
    (0x0400, "PromiseTask"),
    (0x1000, "LazyCancellation"),
    (0x2000, "QueuedByRuntime"),
    (0x4000, "DoNotDispose"),
    (0x10000, "STARTED"),
    (0x20000, "DELEGATE_INVOKED"),
    (0x40000, "DISPOSED"),
    (0x80000, "EXCEPTIONOBSERVEDBYPARENT"),
    (0x100000, "CANCELLATIONACKNOWLEDGED"),
    (0x200000, "FAULTED"),
    (0x400000, "CANCELED"),
    (0x800000, "WAITING_ON_CHILDREN"),
    (0x1000000, "RAN_TO_COMPLETION"),
    (0x2000000, "WAITINGFORACTIVATION"),
    (0x4000000, "COMPLETION_RESERVED"),
    (0x8000000, "THREAD_WAS_ABORTED"),
    (0x10000000, "WAIT_COMPLETION_NOTIFICATION"),
    (0x20000000, "EXECUTIONCONTEXT_IS_NULL"),
    (0x40000000, "TASKSCHEDULED_WAS_FIRED")
  ]

  const TASK_STATE_FAULTED: bv32 := 0x200000
  const TASK_STATE_CANCELED: bv32 := 0x400000
  const TASK_STATE_RAN_TO_COMPLETION: bv32 := 0x1000000
  const TASK_STATE_COMPLETED_MASK: bv32 := 0x1600000

  /** The 32 bits of the `int` state, on which `&` works. */
  function Flags(state: Int32): bv32
  {
    Bits32(state) as bv32
  }

  predicate HasFlag(state: Int32, mask: bv32)
  {
    Flags(state) & mask != 0
  }

  /** The names of the table entries from index `k` on whose bit is set in `flags`, in
      table order. */
  function NamesFrom(table: seq<(bv32, string)>, flags: bv32, k: nat): seq<string>
    decreases |table| - k
  {
    if k >= |table| then []
    else (if flags & table[k].0 != 0 then [table[k].1] else []) + NamesFrom(table, flags, k + 1)
  }

  /** Each name followed by one space, as the `StringBuilder` receives them. */
  function Words(names: seq<string>): string
  {
    if names == [] then "" else names[0] + " " + Words(names[1..])
  }

  /** What `DumpState` builds from the 32 bits of the state. */
  function DumpFlags(flags: bv32): string
  {
    "( " + Words(NamesFrom(StateFlags, flags, 0)) + ")"
  }

  /** `DumpState`. */
  function DumpState(state: Int32): string
  {
    DumpFlags(Flags(state))
  }

  /** `IsCompleted`'s test: faulted, canceled or ran to completion. */
  predicate IsCompleted(state: Int32)
  {
    Flags(state) & TASK_STATE_COMPLETED_MASK != 0
  }

  /** The completion mask is exactly the three final states. */
  lemma IsCompletedStates(state: Int32)
    ensures IsCompleted(state) <==>
      HasFlag(state, TASK_STATE_FAULTED) || HasFlag(state, TASK_STATE_CANCELED)
      || HasFlag(state, TASK_STATE_RAN_TO_COMPLETION)
  {
  }

  /** A state of zero (what a type without `m_stateFlags` gets) is not completed. */
  lemma ZeroNotCompleted()
    ensures !IsCompleted(0)
  {
  }

  /** Every name written is the name of a set bit ... */
  lemma {:induction false} NamesSound(table: seq<(bv32, string)>, flags: bv32, k: nat, name: string)
    requires name in NamesFrom(table, flags, k)
    ensures exists i :: k <= i < |table| && table[i].1 == name && flags & table[i].0 != 0
    decreases |table| - k
  {
    if !(flags & table[k].0 != 0 && name == table[k].1) {
      NamesSound(table, flags, k + 1, name);
    }
  }

  /** ... and the name of every set bit is written. */
  lemma {:induction false} NamesComplete(table: seq<(bv32, string)>, flags: bv32, k: nat, i: nat)
    requires k <= i < |table| && flags & table[i].0 != 0
    ensures table[i].1 in NamesFrom(table, flags, k)
    decreases i - k
  {
    if k < i {
      NamesComplete(table, flags, k + 1, i);
    }
  }

  /** The names depend only on the bits the table tests. */
  lemma {:induction false} NamesAgree(table: seq<(bv32, string)>, x: bv32, y: bv32, k: nat)
    requires forall i :: k <= i < |table| ==> x & table[i].0 == y & table[i].0
    ensures NamesFrom(table, x, k) == NamesFrom(table, y, k)
    decreases |table| - k
  {
    if k < |table| {
      NamesAgree(table, x, y, k + 1);
    }
  }

  /** A name is in the list iff it names a bit that is set in the word. */
  lemma {:induction false} NamesIff(table: seq<(bv32, string)>, flags: bv32, name: string)
    ensures name in NamesFrom(table, flags, 0) <==>
      exists i :: 0 <= i < |table| && table[i].1 == name && flags & table[i].0 != 0
  {
    if name in NamesFrom(table, flags, 0) {
      NamesSound(table, flags, 0, name);
    } else {
      NamesNotListed(table, flags, name);
    }
  }

  lemma NamesNotListed(table: seq<(bv32, string)>, flags: bv32, name: string)
    requires name !in NamesFrom(table, flags, 0)
    ensures forall i :: 0 <= i < |table| && table[i].1 == name ==> flags & table[i].0 == 0
  {
    forall i | 0 <= i < |table| && table[i].1 == name ensures flags & table[i].0 == 0 {
      if flags & table[i].0 != 0 {
        NamesComplete(table, flags, 0, i);
      }
    }
  }

  lemma RanToCompletionNames()
    ensures NamesFrom(StateFlags, 0x1000000, 0) == ["RAN_TO_COMPLETION"]
  {
    assert NamesFrom(StateFlags, 0x1000000, 25) == [];
    assert NamesFrom(StateFlags, 0x1000000, 24) == [];
    assert NamesFrom(StateFlags, 0x1000000, 23) == [];
    assert NamesFrom(StateFlags, 0x1000000, 22) == [];
    assert NamesFrom(StateFlags, 0x1000000, 21) == [];
    assert NamesFrom(StateFlags, 0x1000000, 20) == [];
    assert NamesFrom(StateFlags, 0x1000000, 19) == ["RAN_TO_COMPLETION"];
    assert NamesFrom(StateFlags, 0x1000000, 18) == ["RAN_TO_COMPLETION"];
    assert NamesFrom(StateFlags, 0x1000000, 17) == ["RAN_TO_COMPLETION"];
    assert NamesFrom(StateFlags, 0x1000000, 16) == ["RAN_TO_COMPLETION"];
    assert NamesFrom(StateFlags, 0x1000000, 15) == ["RAN_TO_COMPLETION"];
    assert NamesFrom(StateFlags, 0x1000000, 14) == ["RAN_TO_COMPLETION"];
    assert NamesFrom(StateFlags, 0x1000000, 13) == ["RAN_TO_COMPLETION"];
    assert NamesFrom(StateFlags, 0x1000000, 12) == ["RAN_TO_COMPLETION"];
    assert NamesFrom(StateFlags, 0x1000000, 11) == ["RAN_TO_COMPLETION"];
    assert NamesFrom(StateFlags, 0x1000000, 10) == ["RAN_TO_COMPLETION"];
    assert NamesFrom(StateFlags, 0x1000000, 9) == ["RAN_TO_COMPLETION"];
    assert NamesFrom(StateFlags, 0x1000000, 8) == ["RAN_TO_COMPLETION"];
    assert NamesFrom(StateFlags, 0x1000000, 7) == ["RAN_TO_COMPLETION"];
    assert NamesFrom(StateFlags, 0x1000000, 6) == ["RAN_TO_COMPLETION"];
    assert NamesFrom(StateFlags, 0x1000000, 5) == ["RAN_TO_COMPLETION"];
    assert NamesFrom(StateFlags, 0x1000000, 4) == ["RAN_TO_COMPLETION"];
    assert NamesFrom(StateFlags, 0x1000000, 3) == ["RAN_TO_COMPLETION"];
    assert NamesFrom(StateFlags, 0x1000000, 2) == ["RAN_TO_COMPLETION"];
    assert NamesFrom(StateFlags, 0x1000000, 1) == ["RAN_TO_COMPLETION"];
    assert NamesFrom(StateFlags, 0x1000000, 0) == ["RAN_TO_COMPLETION"];
  }

  lemma UnknownBitsNames()
    ensures NamesFrom(StateFlags, 0x80000120, 0) == []
  {
    assert NamesFrom(StateFlags, 0x80000120, 25) == [];
    assert NamesFrom(StateFlags, 0x80000120, 24) == [];
    assert NamesFrom(StateFlags, 0x80000120, 23) == [];
    assert NamesFrom(StateFlags, 0x80000120, 22) == [];
    assert NamesFrom(StateFlags, 0x80000120, 21) == [];
    assert NamesFrom(StateFlags, 0x80000120, 20) == [];
    assert NamesFrom(StateFlags, 0x80000120, 19) == [];
    assert NamesFrom(StateFlags, 0x80000120, 18) == [];
    assert NamesFrom(StateFlags, 0x80000120, 17) == [];
    assert NamesFrom(StateFlags, 0x80000120, 16) == [];
    assert NamesFrom(StateFlags, 0x80000120, 15) == [];
    assert NamesFrom(StateFlags, 0x80000120, 14) == [];
    assert NamesFrom(StateFlags, 0x80000120, 13) == [];
    assert NamesFrom(StateFlags, 0x80000120, 12) == [];
    assert NamesFrom(StateFlags, 0x80000120, 11) == [];
    assert NamesFrom(StateFlags, 0x80000120, 10) == [];
    assert NamesFrom(StateFlags, 0x80000120, 9) == [];
    assert NamesFrom(StateFlags, 0x80000120, 8) == [];
    assert NamesFrom(StateFlags, 0x80000120, 7) == [];
    assert NamesFrom(StateFlags, 0x80000120, 6) == [];
    assert NamesFrom(StateFlags, 0x80000120, 5) == [];
    assert NamesFrom(StateFlags, 0x80000120, 4) == [];
    assert NamesFrom(StateFlags, 0x80000120, 3) == [];
    assert NamesFrom(StateFlags, 0x80000120, 2) == [];
    assert NamesFrom(StateFlags, 0x80000120, 1) == [];
    assert NamesFrom(StateFlags, 0x80000120, 0) == [];
  }

  lemma UnknownBitsRanToCompletionNames()
    ensures NamesFrom(StateFlags, 0x81000120, 0) == ["RAN_TO_COMPLETION"]
  {
    assert NamesFrom(StateFlags, 0x81000120, 25) == [];
    assert NamesFrom(StateFlags, 0x81000120, 24) == [];
    assert NamesFrom(StateFlags, 0x81000120, 23) == [];
    assert NamesFrom(StateFlags, 0x81000120, 22) == [];
    assert NamesFrom(StateFlags, 0x81000120, 21) == [];
    assert NamesFrom(StateFlags, 0x81000120, 20) == [];
    assert NamesFrom(StateFlags, 0x81000120, 19) == ["RAN_TO_COMPLETION"];
    assert NamesFrom(StateFlags, 0x81000120, 18) == ["RAN_TO_COMPLETION"];
    assert NamesFrom(StateFlags, 0x81000120, 17) == ["RAN_TO_COMPLETION"];
    assert NamesFrom(StateFlags, 0x81000120, 16) == ["RAN_TO_COMPLETION"];
    assert NamesFrom(StateFlags, 0x81000120, 15) == ["RAN_TO_COMPLETION"];
    assert NamesFrom(StateFlags, 0x81000120, 14) == ["RAN_TO_COMPLETION"];
    assert NamesFrom(StateFlags, 0x81000120, 13) == ["RAN_TO_COMPLETION"];
    assert NamesFrom(StateFlags, 0x81000120, 12) == ["RAN_TO_COMPLETION"];
    assert NamesFrom(StateFlags, 0x81000120, 11) == ["RAN_TO_COMPLETION"];
    assert NamesFrom(StateFlags, 0x81000120, 10) == ["RAN_TO_COMPLETION"];
    assert NamesFrom(StateFlags, 0x81000120, 9) == ["RAN_TO_COMPLETION"];
    assert NamesFrom(StateFlags, 0x81000120, 8) == ["RAN_TO_COMPLETION"];
    assert NamesFrom(StateFlags, 0x81000120, 7) == ["RAN_TO_COMPLETION"];
    assert NamesFrom(StateFlags, 0x81000120, 6) == ["RAN_TO_COMPLETION"];
    assert NamesFrom(StateFlags, 0x81000120, 5) == ["RAN_TO_COMPLETION"];
    assert NamesFrom(StateFlags, 0x81000120, 4) == ["RAN_TO_COMPLETION"];
    assert NamesFrom(StateFlags, 0x81000120, 3) == ["RAN_TO_COMPLETION"];
    assert NamesFrom(StateFlags, 0x81000120, 2) == ["RAN_TO_COMPLETION"];
    assert NamesFrom(StateFlags, 0x81000120, 1) == ["RAN_TO_COMPLETION"];
    assert NamesFrom(StateFlags, 0x81000120, 0) == ["RAN_TO_COMPLETION"];
  }

  /** Bits that no table entry tests (0x20, 0x100, 0x80000000) contribute nothing. */
  lemma DumpStateUnknownBits()
    ensures DumpFlags(0x80000120) == DumpFlags(0)
    ensures DumpFlags(0x81000120) == DumpFlags(0x1000000)
  {
    UnknownBitsNames();
    NoNames(StateFlags, 0);
    UnknownBitsRanToCompletionNames();
    RanToCompletionNames();
  }

  /** The state word 0 ... */
  lemma DumpStateZero()
    ensures DumpFlags(0) == "( )"
  {
    NoNames(StateFlags, 0);
  }

  /** ... and the state word 0x1000000. */
  lemma DumpStateRanToCompletion()
    ensures DumpFlags(0x1000000) == "( RAN_TO_COMPLETION )"
  {
    RanToCompletionNames();
    OneWord("RAN_TO_COMPLETION");
    RanToCompletionText();
  }

  lemma OneWord(w: string)
    ensures Words([w]) == w + " "
  {
    assert [w][1..] == [];
  }

  lemma RanToCompletionText()
    ensures "( " + ("RAN_TO_COMPLETION" + " ") + ")" == "( RAN_TO_COMPLETION )"
  {
    var w := "RAN_TO_COMPLETION";
    var got, want := "( " + (w + " ") + ")", "( RAN_TO_COMPLETION )";
    forall i | 0 <= i < |want| ensures got[i] == want[i] {
      if 2 <= i < 2 + |w| {
        assert got[i] == w[i - 2];
      }
    }
  }

  lemma {:induction false} NoNames(table: seq<(bv32, string)>, k: nat)
    ensures NamesFrom(table, 0, k) == []
    decreases |table| - k
  {
    if k < |table| {
      NoNames(table, k + 1);
    }
  }
}
