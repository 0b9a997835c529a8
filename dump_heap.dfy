/**
 * The `aotdumpheap` command (NativeAOTDumpHeap.cs): walks every heap, keeps the objects whose
 * type name passes the `--type` filter, prints one line per kept object unless `--stat` is
 * given, and counts the kept objects per type in a dictionary it lists at the end.
 * The lines the command writes are returned as a sequence of strings.
 */
module DumpHeap {
  import opened Wrappers
  import opened Numerics
  import opened Text
  import opened FormatHelpers
  import opened HeapModel
  import opened HeapStatistics

  /** `--short`, `--stat` and `--type` (null and empty are both the empty string). */
  datatype Options = Options(short: bool, stats: bool, typeFilter: string)

  const NoRuntime := "Error: no Native AOT runtime detected."

  /** `GetObjectRealSize`: base size plus one component per array element, as a `ulong`. */
  function RealSize(obj: HeapObject): U64
  {
    (obj.eeType.baseSize + obj.eeType.componentSize * obj.arraySize) % TWO_64
  }

  /** `Matches`: no filter keeps everything; otherwise the type name must contain it. */
  predicate Matches(eeType: EEType, typeFilter: string)
  {
    typeFilter == [] || ContainsIgnoreCase(eeType.fullName, typeFilter)
  }

  /** The filter keeps exactly the types whose name has the filter text somewhere in it. */
  lemma MatchesSpec(eeType: EEType, typeFilter: string)
    ensures Matches(eeType, typeFilter) <==>
      typeFilter == [] || exists i :: MatchesAtIgnoreCase(eeType.fullName, typeFilter, i)
  {
    ContainsIgnoreCaseSpec(eeType.fullName, typeFilter);
  }

  /** The objects the command keeps, in enumeration order. */
  function Selected(objs: seq<HeapObject>, typeFilter: string): seq<HeapObject>
  {
    if objs == [] then []
    else
      var n := |objs| - 1;
      Selected(objs[..n], typeFilter) + (if Matches(objs[n].eeType, typeFilter) then [objs[n]] else [])
  }

  /** The (type, size) pairs the kept objects add to the dictionary. */
  function Additions(objs: seq<HeapObject>): (r: seq<(EEType, U64)>)
    ensures |r| == |objs|
    ensures forall i :: 0 <= i < |objs| ==> r[i] == (objs[i].eeType, RealSize(objs[i]))
  {
    seq(|objs|, i requires 0 <= i < |objs| => (objs[i].eeType, RealSize(objs[i])))
  }

  /** Reference definitions: how many enumerated objects of type address `a` pass the
      filter, and their real sizes added up. */
  function KeptOfType(objs: seq<HeapObject>, typeFilter: string, a: Address): nat
  {
    if objs == [] then 0
    else
      var o := objs[|objs| - 1];
      KeptOfType(objs[..|objs| - 1], typeFilter, a)
        + (if Matches(o.eeType, typeFilter) && o.eeType.address == a then 1 else 0)
  }

  function KeptBytesOfType(objs: seq<HeapObject>, typeFilter: string, a: Address): nat
  {
    if objs == [] then 0
    else
      var o := objs[|objs| - 1];
      KeptBytesOfType(objs[..|objs| - 1], typeFilter, a)
        + (if Matches(o.eeType, typeFilter) && o.eeType.address == a then RealSize(o) else 0)
  }

  /** The column header printed before the objects. */
  function ColumnHeader(): string
  {
    PadHeader("Address") + " " + PadHeader("EEtype") + " " + PadHeader("Size")
  }

  function StatsHeader(): string
  {
    PadHeader("EEType  ") + " " + PadHeader("Count  ") + " " + PadHeader("TotalSize  ") + " Class Name"
  }

  /** `PrintObject`. */
  function ObjectLine(obj: HeapObject, short: bool): string
  {
    if short then "0x" + Hex(obj.address)
    else PadByNumberSize(obj.address, true) + " " + PadByNumberSize(obj.eeType.address, true)
         + " " + PadByNumberSize(RealSize(obj), true)
  }

  function ObjectLines(objs: seq<HeapObject>, short: bool): (r: seq<string>)
    ensures |r| == |objs|
    ensures forall i :: 0 <= i < |objs| ==> r[i] == ObjectLine(objs[i], short)
  {
    seq(|objs|, i requires 0 <= i < |objs| => ObjectLine(objs[i], short))
  }

  function StatsLine(s: TypeStats): string
  {
    PadByNumberSize(s.eeType.address, true) + " " + PadByNumberSize(s.count, true) + " "
      + PadByNumberSize(s.totalSizeInBytes, true) + " " + s.eeType.fullName
  }

  /** `PrintStats`: a blank line, the header, and one line per record in dictionary order. */
  function StatsLines(records: seq<TypeStats>): (r: seq<string>)
    ensures |r| == |records| + 2
    ensures r[..2] == ["", StatsHeader()]
    ensures forall i :: 0 <= i < |records| ==> r[i + 2] == StatsLine(records[i])
  {
    ["", StatsHeader()] + seq(|records|, i requires 0 <= i < |records| => StatsLine(records[i]))
  }

  /** The dictionary after the walk: the kept objects added in enumeration order. */
  function Stats(objs: seq<HeapObject>, typeFilter: string): (t: Table)
    ensures WellFormed(t)
  {
    AggregateWellFormed(Additions(Selected(objs, typeFilter)));
    Aggregate(Additions(Selected(objs, typeFilter)))
  }

  /** Everything the command writes for the objects `objs` of all heaps. */
  function Output(objs: seq<HeapObject>, opts: Options): seq<string>
  {
    (if !opts.stats && !opts.short then [ColumnHeader()] else [])
      + (if !opts.stats then ObjectLines(Selected(objs, opts.typeFilter), opts.short) else [])
      + StatsLines(Values(Stats(objs, opts.typeFilter)))
  }

  lemma SelectedAppend(objs: seq<HeapObject>, o: HeapObject, typeFilter: string)
    ensures Selected(objs + [o], typeFilter)
      == Selected(objs, typeFilter) + (if Matches(o.eeType, typeFilter) then [o] else [])
  {
    assert (objs + [o])[..|objs|] == objs;
  }

  lemma AdditionsAppend(objs: seq<HeapObject>, o: HeapObject)
    ensures Additions(objs + [o]) == Additions(objs) + [(o.eeType, RealSize(o))]
  {
    assert forall i :: 0 <= i < |objs| ==> (objs + [o])[i] == objs[i];
  }

  lemma AggregateAppend(history: seq<(EEType, U64)>, e: (EEType, U64))
    ensures Aggregate(history + [e]) == Record(Aggregate(history), e.0, e.1)
  {
    assert (history + [e])[..|history|] == history;
  }

  lemma ObjectLinesAppend(objs: seq<HeapObject>, o: HeapObject, short: bool)
    ensures ObjectLines(objs + [o], short) == ObjectLines(objs, short) + [ObjectLine(o, short)]
  {
    assert forall i :: 0 <= i < |objs| ==> (objs + [o])[i] == objs[i];
  }

  lemma PrefixStep<T>(done: seq<T>, xs: seq<T>, i: nat)
    requires i < |xs|
    ensures done + xs[..i] + [xs[i]] == done + xs[..i + 1]
  {
    assert xs[..i + 1] == xs[..i] + [xs[i]];
  }

  lemma SeqAppendAssoc<T>(a: seq<T>, b: seq<T>, x: T)
    ensures a + b + [x] == a + (b + [x])
  {
  }

  /** One kept object extends the kept sequence, the dictionary and the printed lines. */
  lemma KeepStep(kept: seq<HeapObject>, obj: HeapObject, short: bool)
    ensures Aggregate(Additions(kept + [obj])) == Record(Aggregate(Additions(kept)), obj.eeType, RealSize(obj))
    ensures ObjectLines(kept + [obj], short) == ObjectLines(kept, short) + [ObjectLine(obj, short)]
  {
    AdditionsAppend(kept, obj);
    AggregateAppend(Additions(kept), (obj.eeType, RealSize(obj)));
    ObjectLinesAppend(kept, obj, short);
  }

  /** What has been written and counted once the objects `seen` have been visited. */
  ghost predicate Progress(seen: seq<HeapObject>, opts: Options, header: seq<string>, table: Table, lines: seq<string>)
  {
    var kept := Selected(seen, opts.typeFilter);
    && table == Aggregate(Additions(kept))
    && lines == header + (if !opts.stats then ObjectLines(kept, opts.short) else [])
  }

  /** One visited object: printed and counted if it passes the filter, skipped otherwise. */
  lemma VisitStep(seen: seq<HeapObject>, obj: HeapObject, opts: Options, header: seq<string>,
                  table: Table, lines: seq<string>)
    requires Progress(seen, opts, header, table, lines)
    ensures Matches(obj.eeType, opts.typeFilter) ==>
      Progress(seen + [obj], opts, header, Record(table, obj.eeType, RealSize(obj)),
               if !opts.stats then lines + [ObjectLine(obj, opts.short)] else lines)
    ensures !Matches(obj.eeType, opts.typeFilter) ==> Progress(seen + [obj], opts, header, table, lines)
  {
    var kept := Selected(seen, opts.typeFilter);
    SelectedAppend(seen, obj, opts.typeFilter);
    if Matches(obj.eeType, opts.typeFilter) {
      KeepStep(kept, obj, opts.short);
      if !opts.stats {
        SeqAppendAssoc(header, ObjectLines(kept, opts.short), ObjectLine(obj, opts.short));
      }
    } else {
      assert kept + [] == kept;
    }
  }

  /** The inner loop of `Invoke`: the objects of one heap, in enumeration order. */
  method ScanHeap(objs: seq<HeapObject>, opts: Options, ghost done: seq<HeapObject>, ghost header: seq<string>,
                  table0: Table, lines0: seq<string>) returns (table: Table, lines: seq<string>)
    requires Progress(done, opts, header, table0, lines0)
    ensures Progress(done + objs, opts, header, table, lines)
  {
    table, lines := table0, lines0;
    var i := 0;
    assert done + objs[..0] == done;
    while i < |objs|
      invariant 0 <= i <= |objs|
      invariant Progress(done + objs[..i], opts, header, table, lines)
    {
      var obj := objs[i];
      VisitStep(done + objs[..i], obj, opts, header, table, lines);
      PrefixStep(done, objs, i);
      if Matches(obj.eeType, opts.typeFilter) {
        if !opts.stats {
          lines := lines + [ObjectLine(obj, opts.short)];
        }
        table := Record(table, obj.eeType, RealSize(obj));
      }
      i := i + 1;
    }
    assert objs[..i] == objs;
  }

  /**
   * `Invoke`. Without a snapshot only the error line is written. Otherwise the objects of
   * every heap are visited in order; each kept object is printed (unless `--stat`) and added
   * to its type's record, and the records are listed at the end.
   */
  method Invoke(snapshot: Option<seq<seq<HeapObject>>>, opts: Options) returns (lines: seq<string>)
    ensures snapshot.None? ==> lines == [NoRuntime]
    ensures snapshot.Some? ==> lines == Output(Flatten(snapshot.value), opts)
  {
    if snapshot.None? {
      return [NoRuntime];
    }
    var heaps := snapshot.value;
    lines := if !opts.stats && !opts.short then [ColumnHeader()] else [];
    ghost var header := lines;
    var table := EmptyTable;
    var h := 0;
    while h < |heaps|
      invariant 0 <= h <= |heaps|
      invariant Progress(Flatten(heaps[..h]), opts, header, table, lines)
    {
      FlattenStep(heaps, h);
      table, lines := ScanHeap(heaps[h], opts, Flatten(heaps[..h]), header, table, lines);
      h := h + 1;
    }
    assert heaps[..h] == heaps;
    AggregateWellFormed(Additions(Selected(Flatten(heaps), opts.typeFilter)));
    lines := lines + StatsLines(Values(table));
  }

  /** The column header is the first line iff neither `--stat` nor `--short` is given. */
  lemma ColumnHeaderIff(objs: seq<HeapObject>, opts: Options)
    ensures var out := Output(objs, opts);
      |out| > 0 && (out[0] == ColumnHeader() <==> !opts.stats && !opts.short)
  {
    var out := Output(objs, opts);
    var sel := Selected(objs, opts.typeFilter);
    assert ColumnHeader()[0] == 'A';
    if opts.stats {
      assert out[0] == "";
    } else if opts.short {
      if sel == [] {
        assert out[0] == "";
      } else {
        assert out[0] == ObjectLine(sel[0], true);
        assert out[0][0] == '0';
      }
    }
  }

  /** Without `--stat`, the kept objects are printed once each, in order, after the optional
      column header; in `--short` mode a line is `0x` and the object's address in hex. */
  lemma ObjectLinesPrinted(objs: seq<HeapObject>, opts: Options)
    requires !opts.stats
    ensures |Output(objs, opts)| ==
      HeaderLines(opts) + |Selected(objs, opts.typeFilter)| + |Values(Stats(objs, opts.typeFilter))| + 2
    ensures Output(objs, opts)[HeaderLines(opts)..HeaderLines(opts) + |Selected(objs, opts.typeFilter)|]
      == ObjectLines(Selected(objs, opts.typeFilter), opts.short)
  {
    var sel := Selected(objs, opts.typeFilter);
    var header: seq<string> := if opts.short then [] else [ColumnHeader()];
    var lines := ObjectLines(sel, opts.short);
    var stats := StatsLines(Values(Stats(objs, opts.typeFilter)));
    assert Output(objs, opts) == header + lines + stats;
    MiddleSlice(header, lines, stats);
  }

  lemma MiddleSlice<T>(a: seq<T>, b: seq<T>, c: seq<T>)
    ensures (a + b + c)[|a|..|a| + |b|] == b
  {
  }

  /** The number of header lines before the objects: none in `--short` mode. */
  function HeaderLines(opts: Options): nat
  {
    if opts.short then 0 else 1
  }

  /** A `--short` line reads back as the object's address. */
  lemma ShortLineAddress(obj: HeapObject)
    ensures var line := ObjectLine(obj, true);
      line[..2] == "0x" && HexValue(line[2..]) == obj.address
      && forall i :: 2 <= i < |line| ==> IsHexDigit(line[i])
  {
    HexRoundTrip(obj.address);
    assert ObjectLine(obj, true)[2..] == Hex(obj.address);
  }

  /** With `--stat` nothing but the statistics table is written. */
  lemma StatsOnly(objs: seq<HeapObject>, opts: Options)
    requires opts.stats
    ensures Output(objs, opts) == StatsLines(Values(Stats(objs, opts.typeFilter)))
  {
  }

  /** Only kept objects are in the statistics: there is a record for a type address iff
      some kept object has that type, and it holds that many objects and their real sizes,
      modulo the widths of `count` and `totalSizeInBytes`. */
  lemma StatsCount(objs: seq<HeapObject>, typeFilter: string, a: Address)
    ensures var t := Stats(objs, typeFilter);
      && (a in t.stats <==> KeptOfType(objs, typeFilter, a) > 0)
      && (a in t.stats ==>
            && t.stats[a].count == KeptOfType(objs, typeFilter, a) % TWO_32
            && t.stats[a].totalSizeInBytes == KeptBytesOfType(objs, typeFilter, a) % TWO_64)
  {
    var h := Additions(Selected(objs, typeFilter));
    KeptOfTypeIsCount(objs, typeFilter, a);
    AggregateKeys(h, a);
    if CountOf(h, a) > 0 {
      AggregateRecord(h, a);
    }
  }

  /** Counting the dictionary's additions agrees with counting the kept objects. */
  lemma KeptOfTypeIsCount(objs: seq<HeapObject>, typeFilter: string, a: Address)
    ensures CountOf(Additions(Selected(objs, typeFilter)), a) == KeptOfType(objs, typeFilter, a)
    ensures BytesOf(Additions(Selected(objs, typeFilter)), a) == KeptBytesOfType(objs, typeFilter, a)
  {
    KeptCount(objs, typeFilter, a);
    KeptBytes(objs, typeFilter, a);
  }

  /** One more object adds to the additions exactly when it is kept. */
  lemma AdditionsStep(prefix: seq<HeapObject>, o: HeapObject, typeFilter: string)
    ensures Matches(o.eeType, typeFilter) ==>
      Additions(Selected(prefix + [o], typeFilter)) == Additions(Selected(prefix, typeFilter)) + [(o.eeType, RealSize(o))]
    ensures !Matches(o.eeType, typeFilter) ==>
      Additions(Selected(prefix + [o], typeFilter)) == Additions(Selected(prefix, typeFilter))
  {
    var sel := Selected(prefix, typeFilter);
    SelectedAppend(prefix, o, typeFilter);
    if Matches(o.eeType, typeFilter) {
      AdditionsAppend(sel, o);
    } else {
      assert sel + [] == sel;
    }
  }

  lemma {:induction false} KeptCount(objs: seq<HeapObject>, typeFilter: string, a: Address)
    ensures CountOf(Additions(Selected(objs, typeFilter)), a) == KeptOfType(objs, typeFilter, a)
  {
    if objs != [] {
      var n := |objs| - 1;
      var o := objs[n];
      KeptCount(objs[..n], typeFilter, a);
      assert objs == objs[..n] + [o];
      AdditionsStep(objs[..n], o, typeFilter);
      if Matches(o.eeType, typeFilter) {
        CountOfAppend(Additions(Selected(objs[..n], typeFilter)), (o.eeType, RealSize(o)), a);
      }
    }
  }

  lemma {:induction false} KeptBytes(objs: seq<HeapObject>, typeFilter: string, a: Address)
    ensures BytesOf(Additions(Selected(objs, typeFilter)), a) == KeptBytesOfType(objs, typeFilter, a)
  {
    if objs != [] {
      var n := |objs| - 1;
      var o := objs[n];
      KeptBytes(objs[..n], typeFilter, a);
      assert objs == objs[..n] + [o];
      AdditionsStep(objs[..n], o, typeFilter);
      if Matches(o.eeType, typeFilter) {
        CountOfAppend(Additions(Selected(objs[..n], typeFilter)), (o.eeType, RealSize(o)), a);
      }
    }
  }
}
