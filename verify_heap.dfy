/**
 * The `aotverifyheap` command (NativeAOTVerifyHeap.cs): walks every heap, reports each object
 * whose `Verify()` fails together with the last object of the same heap that passed, and ends
 * with the number of heaps and of objects it saw. It never stops early.
 */
module VerifyHeap {
  import opened Wrappers
  import opened Numerics
  import opened FormatHelpers
  import opened HeapModel

  /** One `DisplayCorruptedObject`: the failing address and the last good object, if any. */
  datatype Diagnostic = Diagnostic(address: Address, lastGood: Option<HeapObject>)

  const NoRuntime := "Error: no Native AOT runtime detected."

  /** The line written for a diagnostic: the two messages are written back to back. */
  function DiagnosticText(d: Diagnostic): string
  {
    "Object at address 0x" + Hex(d.address) + " is not a valid object"
      + match d.lastGood
        case None => ""
        case Some(o) => "Last good object address 0x" + Hex(o.address) + " type " + o.eeType.fullName
  }

  /** The line written for each diagnostic, in order. */
  function DiagnosticLines(ds: seq<Diagnostic>): seq<string>
  {
    if ds == [] then [] else DiagnosticLines(ds[..|ds| - 1]) + [DiagnosticText(ds[|ds| - 1])]
  }

  /** The closing line, with both counters in decimal. */
  function Summary(heaps: Int32, count: Int32): string
  {
    "Found " + IntText(heaps) + " heap(s) with " + IntText(count) + " objects."
  }

  /** The object held in `lastGood` after the objects `objs` of one heap. */
  function LastGood(objs: seq<HeapObject>): Option<HeapObject>
  {
    if objs == [] then None
    else if objs[|objs| - 1].valid then Some(objs[|objs| - 1])
    else LastGood(objs[..|objs| - 1])
  }

  /** The diagnostics written for one heap. */
  function HeapDiagnostics(objs: seq<HeapObject>): seq<Diagnostic>
  {
    if objs == [] then []
    else
      var n := |objs| - 1;
      HeapDiagnostics(objs[..n])
        + (if objs[n].valid then [] else [Diagnostic(objs[n].address, LastGood(objs[..n]))])
  }

  /** The diagnostics for all heaps; `lastGood` starts out null in every heap. */
  function AllDiagnostics(heaps: seq<seq<HeapObject>>): seq<Diagnostic>
  {
    if heaps == [] then []
    else AllDiagnostics(heaps[..|heaps| - 1]) + HeapDiagnostics(heaps[|heaps| - 1])
  }

  /** Everything the command writes for a snapshot with these heaps. */
  function Output(heaps: seq<seq<HeapObject>>): seq<string>
  {
    DiagnosticLines(AllDiagnostics(heaps)) + [Summary(WrapInt32(|heaps|), WrapInt32(|Flatten(heaps)|))]
  }

  /** Reference definition: the objects that fail verification, in order. */
  function Failing(objs: seq<HeapObject>): seq<HeapObject>
  {
    if objs == [] then []
    else Failing(objs[..|objs| - 1]) + (if objs[|objs| - 1].valid then [] else [objs[|objs| - 1]])
  }

  /** The state of the inner loop after `i` objects of heap `h`. */
  ghost predicate Scanned(heaps: seq<seq<HeapObject>>, h: nat, i: nat, diags: seq<Diagnostic>,
                          lastGood: Option<HeapObject>, count: Int32)
    requires h < |heaps| && i <= |heaps[h]|
  {
    && diags == AllDiagnostics(heaps[..h]) + HeapDiagnostics(heaps[h][..i])
    && lastGood == LastGood(heaps[h][..i])
    && count == WrapInt32(|Flatten(heaps[..h])| + i)
  }

  lemma ScanStep(heaps: seq<seq<HeapObject>>, h: nat, i: nat, diags: seq<Diagnostic>,
                 lastGood: Option<HeapObject>, count: Int32)
    requires h < |heaps| && i < |heaps[h]|
    requires Scanned(heaps, h, i, diags, lastGood, count)
    ensures var obj := heaps[h][i];
      Scanned(heaps, h, i + 1,
              if obj.valid then diags else diags + [Diagnostic(obj.address, lastGood)],
              if obj.valid then Some(obj) else lastGood,
              IncInt32(count))
  {
    var objs := heaps[h];
    assert objs[..i + 1][..i] == objs[..i];
    IncWrap(|Flatten(heaps[..h])| + i);
    if !objs[i].valid {
      assert AllDiagnostics(heaps[..h]) + HeapDiagnostics(objs[..i]) + [Diagnostic(objs[i].address, lastGood)]
        == AllDiagnostics(heaps[..h]) + (HeapDiagnostics(objs[..i]) + [Diagnostic(objs[i].address, lastGood)]);
    } else {
      assert HeapDiagnostics(objs[..i]) + [] == HeapDiagnostics(objs[..i]);
    }
  }

  lemma HeapDone(heaps: seq<seq<HeapObject>>, h: nat)
    requires h < |heaps|
    ensures heaps[h][..|heaps[h]|] == heaps[h]
    ensures AllDiagnostics(heaps[..h + 1]) == AllDiagnostics(heaps[..h]) + HeapDiagnostics(heaps[h])
    ensures |Flatten(heaps[..h + 1])| == |Flatten(heaps[..h])| + |heaps[h]|
  {
    assert heaps[..h + 1][..h] == heaps[..h];
  }

  /** The inner loop of `Invoke`: the objects of heap `h` in enumeration order, with
      `lastGood` starting out null. */
  method ScanHeap(heaps: seq<seq<HeapObject>>, h: nat, count0: Int32, lines0: seq<string>)
      returns (count: Int32, lines: seq<string>)
    requires h < |heaps|
    requires count0 == WrapInt32(|Flatten(heaps[..h])|)
    requires lines0 == DiagnosticLines(AllDiagnostics(heaps[..h]))
    ensures count == WrapInt32(|Flatten(heaps[..h + 1])|)
    ensures lines == DiagnosticLines(AllDiagnostics(heaps[..h + 1]))
  {
    var objs := heaps[h];
    count, lines := count0, lines0;
    ghost var diags := AllDiagnostics(heaps[..h]);
    var lastGood: Option<HeapObject> := None;
    var i := 0;
    assert diags + [] == diags;
    while i < |objs|
      invariant 0 <= i <= |objs|
      invariant Scanned(heaps, h, i, diags, lastGood, count)
      invariant lines == DiagnosticLines(diags)
    {
      var obj := objs[i];
      ScanStep(heaps, h, i, diags, lastGood, count);
      count := IncInt32(count);
      if !obj.valid {
        var d := Diagnostic(obj.address, lastGood);
        DiagnosticLinesAppend(diags, d);
        diags := diags + [d];
        lines := lines + [DiagnosticText(d)];
      } else {
        lastGood := Some(obj);
      }
      i := i + 1;
    }
    HeapDone(heaps, h);
  }

  /**
   * `Invoke`: without a snapshot, only the error; otherwise every object of every heap is
   * counted, each failing one is reported with the heap's last good object so far, and the
   * heap and object counters (`int`s, incremented without overflow checks) close the output.
   */
  method Invoke(snapshot: Option<seq<seq<HeapObject>>>) returns (lines: seq<string>)
    ensures snapshot.None? ==> lines == [NoRuntime]
    ensures snapshot.Some? ==> lines == Output(snapshot.value)
  {
    if snapshot.None? {
      return [NoRuntime];
    }
    var heaps := snapshot.value;
    var count: Int32 := 0;
    var heapCount: Int32 := 0;
    lines := [];
    var h := 0;
    while h < |heaps|
      invariant 0 <= h <= |heaps|
      invariant lines == DiagnosticLines(AllDiagnostics(heaps[..h]))
      invariant count == WrapInt32(|Flatten(heaps[..h])|)
      invariant heapCount == WrapInt32(h)
    {
      IncWrap(h);
      heapCount := IncInt32(heapCount);
      count, lines := ScanHeap(heaps, h, count, lines);
      h := h + 1;
    }
    assert heaps[..h] == heaps;
    lines := lines + [Summary(heapCount, count)];
  }

  /** The output is one line per failing object, each naming that object's address, then the
      summary with the two counters. */
  lemma OutputLines(heaps: seq<seq<HeapObject>>)
    ensures var out := Output(heaps);
      && |out| == |Failing(Flatten(heaps))| + 1
      && out[|out| - 1] == Summary(WrapInt32(|heaps|), WrapInt32(|Flatten(heaps)|))
      && forall i :: 0 <= i < |out| - 1 ==> FailureLine(out[i], Failing(Flatten(heaps))[i].address)
  {
    var ds := AllDiagnostics(heaps);
    AllDiagnosticsMatchFailures(heaps);
    DiagnosticLinesText(ds);
    forall i | 0 <= i < |ds| ensures FailureLine(Output(heaps)[i], Failing(Flatten(heaps))[i].address) {
      DiagnosticTextAddress(ds[i]);
    }
  }

  /** A line that starts with `Object at address 0x`, then hex digits that read back as
      `a`, then a space. */
  predicate FailureLine(line: string, a: Address)
  {
    var k := 20 + |Hex(a)|;
    && k < |line|
    && line[..20] == "Object at address 0x"
    && (forall j :: 0 <= j < k - 20 ==> IsHexDigit(line[20..k][j]))
    && HexValue(line[20..k]) == a
    && line[k] == ' '
  }

  lemma DiagnosticTextAddress(d: Diagnostic)
    ensures FailureLine(DiagnosticText(d), d.address)
  {
    var prefix := "Object at address 0x";
    var h := Hex(d.address);
    var rest := DiagnosticText(d)[20 + |h|..];
    assert |prefix| == 20;
    assert DiagnosticText(d) == prefix + h + rest;
    assert rest[0] == ' ';
    HexRoundTrip(d.address);
    SplitThree(prefix, h, rest);
  }

  lemma SplitThree(a: string, b: string, c: string)
    ensures (a + b + c)[..|a|] == a
    ensures (a + b + c)[|a|..|a| + |b|] == b
    ensures |c| > 0 ==> (a + b + c)[|a| + |b|] == c[0]
  {
  }

  lemma DiagnosticLinesAppend(ds: seq<Diagnostic>, d: Diagnostic)
    ensures DiagnosticLines(ds + [d]) == DiagnosticLines(ds) + [DiagnosticText(d)]
  {
    assert (ds + [d])[..|ds|] == ds;
  }

  lemma {:induction false} DiagnosticLinesText(ds: seq<Diagnostic>)
    ensures |DiagnosticLines(ds)| == |ds|
    ensures forall i :: 0 <= i < |ds| ==> DiagnosticLines(ds)[i] == DiagnosticText(ds[i])
  {
    if ds != [] {
      DiagnosticLinesText(ds[..|ds| - 1]);
    }
  }

  /** `lastGood` is the most recent object that passed verification: it is in the heap, it
      passed, and everything after it failed. */
  lemma {:induction false} LastGoodIsLatestValid(objs: seq<HeapObject>)
    requires LastGood(objs).Some?
    ensures exists k :: 0 <= k < |objs| && objs[k] == LastGood(objs).value && objs[k].valid
                        && (forall j :: k < j < |objs| ==> !objs[j].valid)
  {
    var k := LastGoodAt(objs);
    assert objs[k] == LastGood(objs).value && objs[k].valid;
  }

  /** The position of `lastGood` in the heap. */
  lemma {:induction false} LastGoodAt(objs: seq<HeapObject>) returns (k: nat)
    requires LastGood(objs).Some?
    ensures k < |objs| && objs[k] == LastGood(objs).value && objs[k].valid
    ensures forall j :: k < j < |objs| ==> !objs[j].valid
  {
    var n := |objs| - 1;
    if objs[n].valid {
      k := n;
    } else {
      var prefix := objs[..n];
      k := LastGoodAt(prefix);
      assert objs[k] == prefix[k];
      forall j | k < j < |objs| ensures !objs[j].valid {
        if j < n {
          assert objs[j] == prefix[j];
        }
      }
    }
  }

  /** `lastGood` is null exactly when no object so far passed verification. */
  lemma {:induction false} LastGoodNone(objs: seq<HeapObject>)
    ensures LastGood(objs).None? <==> forall j :: 0 <= j < |objs| ==> !objs[j].valid
  {
    if objs != [] {
      var n := |objs| - 1;
      LastGoodNone(objs[..n]);
      assert forall j :: 0 <= j < n ==> objs[..n][j] == objs[j];
    }
  }

  /** A failing object is never `lastGood`. */
  lemma {:induction false} LastGoodIsValid(objs: seq<HeapObject>)
    ensures LastGood(objs).Some? ==> LastGood(objs).value.valid
  {
    if objs != [] && !objs[|objs| - 1].valid {
      LastGoodIsValid(objs[..|objs| - 1]);
    }
  }

  /** Exactly one diagnostic per failing object, in order, naming its address. */
  lemma {:induction false} DiagnosticsMatchFailures(objs: seq<HeapObject>)
    ensures |HeapDiagnostics(objs)| == |Failing(objs)|
    ensures forall i :: 0 <= i < |Failing(objs)| ==> HeapDiagnostics(objs)[i].address == Failing(objs)[i].address
  {
    if objs != [] {
      DiagnosticsMatchFailures(objs[..|objs| - 1]);
    }
  }

  /** Each failing object's diagnostic carries the last good object before it in its heap. */
  lemma {:induction false} DiagnosticForFailure(objs: seq<HeapObject>, k: nat)
    requires k < |objs| && !objs[k].valid
    ensures Diagnostic(objs[k].address, LastGood(objs[..k])) in HeapDiagnostics(objs)
  {
    var n := |objs| - 1;
    if k < n {
      DiagnosticForFailure(objs[..n], k);
      assert objs[..n][..k] == objs[..k];
    } else {
      assert objs[..n] == objs[..k];
    }
  }

  /** The diagnostics of all heaps are those of each heap, one heap after the other. */
  lemma {:induction false} AllDiagnosticsCount(heaps: seq<seq<HeapObject>>)
    ensures |AllDiagnostics(heaps)| == |Failing(Flatten(heaps))|
  {
    if heaps != [] {
      var n := |heaps| - 1;
      AllDiagnosticsCount(heaps[..n]);
      DiagnosticsMatchFailures(heaps[n]);
      FailingAppend(Flatten(heaps[..n]), heaps[n]);
    }
  }

  lemma {:induction false} FailingAppend(a: seq<HeapObject>, b: seq<HeapObject>)
    ensures Failing(a + b) == Failing(a) + Failing(b)
    decreases |b|
  {
    if b == [] {
      assert a + b == a;
    } else {
      var n := |b| - 1;
      FailingAppend(a, b[..n]);
      assert (a + b)[..|a + b| - 1] == a + b[..n];
    }
  }

  /** Across all heaps, the i-th diagnostic is for the i-th failing object. */
  lemma {:induction false} AllDiagnosticsMatchFailures(heaps: seq<seq<HeapObject>>)
    ensures |AllDiagnostics(heaps)| == |Failing(Flatten(heaps))|
    ensures forall i :: 0 <= i < |AllDiagnostics(heaps)| ==>
      AllDiagnostics(heaps)[i].address == Failing(Flatten(heaps))[i].address
  {
    if heaps != [] {
      var n := |heaps| - 1;
      AllDiagnosticsMatchFailures(heaps[..n]);
      DiagnosticsMatchFailures(heaps[n]);
      FailingAppend(Flatten(heaps[..n]), heaps[n]);
    }
  }
}
