/**
 * The `aotdumpasync` command (NativeAOTDumpAsync.cs) as a session object: the command holds
 * three caches it fills in place while it enumerates the heap, walks continuation chains and
 * classifies top-level objects. Every method is proved to compute what the pure definitions of
 * modules AsyncSnapshot, AsyncSelection and AsyncGraph say, and to keep the caches consistent
 * with the snapshot.
 */
module DumpAsync {
  import opened Wrappers
  import opened Numerics
  import opened Text
  import opened FormatHelpers
  import opened HeapModel
  import opened HeapStatistics
  import opened StableSort
  import opened AsyncGraph
  import opened AsyncSnapshot
  import AsyncState
  import AsyncSelection

  /** `AsyncRecord`: the two lazily computed values (none until first forced) and two flags. */
  datatype AsyncRecord = AsyncRecord(continuations: Option<seq<Address>>, state: Option<Int32>,
                                     isTopLevel: bool, includeInReport: bool)

  /** A record only ever holds the values its lazy initialisers compute. */
  ghost predicate RecordValid(s: Snapshot, a: Address, r: AsyncRecord)
  {
    && (r.continuations.Some? ==> r.continuations.value == Continuations(s, a))
    && (r.state.Some? ==> r.state.value == StateOf(s, a))
  }

  /** The objects cache holds each address's type. */
  ghost predicate ObjectsValid(s: Snapshot, cache: map<Address, EEType>)
  {
    forall a :: a in cache ==> cache[a] == TypeOf(s, a)
  }

  /** Every lazy value forced so far is the snapshot's. */
  ghost predicate RecordsValid(s: Snapshot, records: map<Address, AsyncRecord>)
  {
    forall a :: a in records ==> RecordValid(s, a, records[a])
  }

  /** The offsets cache holds what `GetField` answers for the type at each key. */
  ghost predicate OffsetsValid(s: Snapshot, cache: map<Address, map<string, Option<U32>>>)
  {
    forall t, n :: t in cache && n in cache[t] ==> cache[t][n] == FieldAt(s, t, n)
  }

  /** `GetField` was called once for each cached (type, field) and never for anything else. */
  ghost predicate LookupsMatch(log: seq<(Address, string)>, cache: map<Address, map<string, Option<U32>>>)
  {
    && (forall i, j :: 0 <= i < j < |log| ==> log[i] != log[j])
    && (forall i :: 0 <= i < |log| ==> log[i].0 in cache && log[i].1 in cache[log[i].0])
    && (forall t, n :: t in cache && n in cache[t] ==> (t, n) in log)
  }

  /** A first lookup of `(t, name)` enters both the cache and the log. */
  lemma RecordLookup(s: Snapshot, cache: map<Address, map<string, Option<U32>>>, log: seq<(Address, string)>,
                     t: Address, name: string, fields: map<string, Option<U32>>)
    requires OffsetsValid(s, cache) && LookupsMatch(log, cache)
    requires !(t in cache && name in cache[t])
    requires fields == if t in cache then cache[t] else map[]
    ensures OffsetsValid(s, cache[t := fields[name := FieldAt(s, t, name)]])
    ensures LookupsMatch(log + [(t, name)], cache[t := fields[name := FieldAt(s, t, name)]])
  {
    var cache' := cache[t := fields[name := FieldAt(s, t, name)]];
    var log' := log + [(t, name)];
    assert (t, name) !in log;
    forall i, j | 0 <= i < j < |log'| ensures log'[i] != log'[j] {
      if j == |log| {
        assert log'[i] in log;
      }
    }
  }

  /** `isTopLevel` as `IsTopLevel` reports it: a record created now would say true. */
  function IsTop(records: map<Address, AsyncRecord>, a: Address): bool
  {
    a !in records || records[a].isTopLevel
  }

  /** `includeInReport` as `IncludeInReport` reports it: a record created now says `Matches`. */
  ghost function IncludeOf(s: Snapshot, o: AsyncSelection.Options, records: map<Address, AsyncRecord>, a: Address): bool
  {
    if a in records then records[a].includeInReport else AsyncSelection.Matches(s, o, a)
  }

  /** Neither flag of any object changed between the two record maps. */
  ghost predicate FlagsKept(s: Snapshot, o: AsyncSelection.Options, before: map<Address, AsyncRecord>,
                            after: map<Address, AsyncRecord>)
  {
    forall a :: IsTop(after, a) == IsTop(before, a) && IncludeOf(s, o, after, a) == IncludeOf(s, o, before, a)
  }

  lemma FlagsKeptTrans(s: Snapshot, o: AsyncSelection.Options, r0: map<Address, AsyncRecord>,
                       r1: map<Address, AsyncRecord>, r2: map<Address, AsyncRecord>)
    requires FlagsKept(s, o, r0, r1) && FlagsKept(s, o, r1, r2)
    ensures FlagsKept(s, o, r0, r2)
  {
  }

  class Session {
    const snapshot: Snapshot
    const options: AsyncSelection.Options
    /** `_offsetsCache`: per type address, each field looked up so far (none: not found). */
    var offsetsCache: map<Address, map<string, Option<U32>>>
    /** `_objectsCache`: the object made for each address, given by its type. */
    var objectsCache: map<Address, EEType>
    /** `_asyncRecordsCache`. */
    var records: map<Address, AsyncRecord>
    /** Each (type address, field name) `TryGetField` passed to `GetField`, in call order. */
    ghost var lookups: seq<(Address, string)>

    ghost predicate Valid()
      reads this
    {
      && WellFormedTypes(snapshot) && ListsWellFormed(snapshot) && Closed(SnapshotGraph(snapshot))
      && OffsetsValid(snapshot, offsetsCache) && LookupsMatch(lookups, offsetsCache)
      && ObjectsValid(snapshot, objectsCache) && RecordsValid(snapshot, records)
    }

    /** A command over `s` with empty caches. */
    constructor (s: Snapshot, o: AsyncSelection.Options)
      requires WellFormedTypes(s) && ListsWellFormed(s)
      ensures Valid() && snapshot == s && options == o
      ensures offsetsCache == map[] && objectsCache == map[] && records == map[] && lookups == []
    {
      snapshot, options := s, o;
      offsetsCache, objectsCache, records := map[], map[], map[];
      lookups := [];
      SnapshotClosed(s);
    }

    /**
     * `TryGetField`: the field of the object's type, looked up through `GetField` only the
     * first time this (type address, field name) is asked for; a failure is cached too.
     */
    method TryGetField(a: Address, name: string) returns (field: Option<U32>)
      requires Valid()
      modifies this`offsetsCache, this`lookups
      ensures Valid()
      ensures field == FieldOf(snapshot, a, name)
      ensures var t := TypeOf(snapshot, a).address;
        && t in offsetsCache && name in offsetsCache[t]
        && (t in old(offsetsCache) && name in old(offsetsCache)[t] ==>
              offsetsCache == old(offsetsCache) && lookups == old(lookups))
        && (!(t in old(offsetsCache) && name in old(offsetsCache)[t]) ==> lookups == old(lookups) + [(t, name)])
    {
      var t := TypeOf(snapshot, a).address;
      assert t == Read(snapshot, a);
      if t in offsetsCache && name in offsetsCache[t] {
        return offsetsCache[t][name];
      }
      var fields := if t in offsetsCache then offsetsCache[t] else map[];
      // `GetField`, with its exception caught as null.
      field := FieldOf(snapshot, a, name);
      RecordLookup(snapshot, offsetsCache, lookups, t, name, fields);
      offsetsCache := offsetsCache[t := fields[name := field]];
      lookups := lookups + [(t, name)];
    }

    /** `GetOrCreateObject`: the object for an address is made once and then reused. */
    method GetOrCreateObject(address: Address) returns (obj: Address)
      requires Valid()
      modifies this`objectsCache
      ensures Valid() && obj == address && obj in objectsCache
      ensures address in old(objectsCache) ==> objectsCache == old(objectsCache)
      ensures address !in old(objectsCache) ==> objectsCache == old(objectsCache)[address := TypeOf(snapshot, address)]
    {
      if address !in objectsCache {
        objectsCache := objectsCache[address := TypeOf(snapshot, address)];
      }
      obj := address;
    }

    /** `GetObjectFromPtrToRef`: the object whose address is stored at `slot`; null for zero. */
    method GetObjectFromPtrToRef(slot: Address) returns (obj: Option<Address>)
      requires Valid()
      modifies this`objectsCache
      ensures Valid() && old(objectsCache).Keys <= objectsCache.Keys
      ensures obj == (if Read(snapshot, slot) == 0 then None else Some(Read(snapshot, slot)))
      ensures obj.Some? ==> obj.value in objectsCache
    {
      var objAddr := Read(snapshot, slot);
      if objAddr == 0 {
        return None;
      }
      var o := GetOrCreateObject(objAddr);
      return Some(o);
    }

    /** The object read through a field at offset `off`, or `obj` itself when the read is null. */
    method FollowField(obj: Address, off: U32) returns (next: Address)
      requires Valid()
      modifies this`objectsCache
      ensures Valid() && old(objectsCache).Keys <= objectsCache.Keys
      ensures next == (if Read(snapshot, AddU64(obj, off)) == 0 then obj else Read(snapshot, AddU64(obj, off)))
    {
      next := obj;
      var temp := GetObjectFromPtrToRef(AddU64(obj, off));
      if temp.Some? {
        next := temp.value;
      }
    }

    /** `ResolveContinuation`, step by step through the caches. */
    method ResolveContinuation(c: Address) returns (r: Address)
      requires Valid()
      modifies this`offsetsCache, this`lookups, this`objectsCache
      ensures Valid() && old(objectsCache).Keys <= objectsCache.Keys
      ensures r == Resolve(snapshot, c)
    {
      r := c;
      var sm := TryGetField(c, "StateMachine");
      if sm.None? {
        r := ResolveTask(c);
      }
    }

    /** `ResolveContinuation` past the state machine test: through `m_task` when present,
        otherwise through the delegate. */
    method ResolveTask(c: Address) returns (r: Address)
      requires Valid()
      modifies this`offsetsCache, this`lookups, this`objectsCache
      ensures Valid() && old(objectsCache).Keys <= objectsCache.Keys
      ensures r == (if FieldOf(snapshot, c, "m_task").Some? then Hop(snapshot, c, "m_task") else ThroughDelegate(snapshot, c))
    {
      var inner := TryGetField(c, "m_task");
      if inner.Some? {
        r := FollowField(c, inner.value);
      } else {
        r := ResolveThroughDelegate(c);
      }
    }

    /** The `m_action` / `_target` branch of `ResolveContinuation`. */
    method ResolveThroughDelegate(c: Address) returns (r: Address)
      requires Valid()
      modifies this`offsetsCache, this`lookups, this`objectsCache
      ensures Valid() && old(objectsCache).Keys <= objectsCache.Keys
      ensures r == ThroughDelegate(snapshot, c)
    {
      var b := HopField(c, "m_action");
      r := ThroughTarget(b);
    }

    /** A field hop: the object the field refers to, or `a` itself when the field is missing
        or null. */
    method HopField(a: Address, name: string) returns (r: Address)
      requires Valid()
      modifies this`offsetsCache, this`lookups, this`objectsCache
      ensures Valid() && old(objectsCache).Keys <= objectsCache.Keys
      ensures r == Hop(snapshot, a, name)
    {
      r := a;
      var inner := TryGetField(a, name);
      if inner.Some? {
        r := FollowField(a, inner.value);
      }
    }

    /** The `_target` step of `ResolveThroughDelegate`, from the object `b` reached through
        `m_action`. */
    method ThroughTarget(b: Address) returns (r: Address)
      requires Valid()
      modifies this`offsetsCache, this`lookups, this`objectsCache
      ensures Valid() && old(objectsCache).Keys <= objectsCache.Keys
      ensures r == (match FieldTarget(snapshot, b, "_target") case None => b case Some(t) => Unwrapped(snapshot, t))
    {
      r := b;
      var inner := TryGetField(b, "_target");
      if inner.Some? {
        var temp := GetObjectFromPtrToRef(AddU64(b, inner.value));
        if temp.Some? {
          r := UnwrapContinuationWrapper(temp.value);
        }
      }
    }

    /** After a `_target` hop: a continuation wrapper is replaced by its `_continuation`. */
    method UnwrapContinuationWrapper(t: Address) returns (r: Address)
      requires Valid() && t in objectsCache
      modifies this`offsetsCache, this`lookups, this`objectsCache
      ensures Valid() && old(objectsCache).Keys <= objectsCache.Keys
      ensures r == Unwrapped(snapshot, t)
    {
      r := t;
      if StartsWith(objectsCache[r].fullName, CONTINUATION_WRAPPER) {
        var inner := TryGetField(r, "_continuation");
        if inner.Some? {
          r := FollowField(r, inner.value);
        }
      }
    }

    /**
     * `ParseContinuations`: the raw references of the object, each passed through
     * `ResolveContinuation` (the `Select`).
     */
    method ParseContinuations(a: Address) returns (conts: seq<Address>)
      requires Valid()
      modifies this`offsetsCache, this`lookups, this`objectsCache
      ensures Valid() && old(objectsCache).Keys <= objectsCache.Keys
      ensures conts == Continuations(snapshot, a)
    {
      var raw := ContinuationObjects(a);
      conts := [];
      var j := 0;
      while j < |raw|
        invariant 0 <= j <= |raw|
        invariant Valid() && old(objectsCache).Keys <= objectsCache.Keys
        invariant |conts| == j && forall k :: 0 <= k < j ==> conts[k] == Resolve(snapshot, raw[k])
      {
        var r := ResolveContinuation(raw[j]);
        conts := conts + [r];
        j := j + 1;
      }
    }

    /** The `continuationObjects` list of `ParseContinuations`: the list shape or the
        single-field shape. */
    method ContinuationObjects(a: Address) returns (raw: seq<Address>)
      requires Valid()
      modifies this`offsetsCache, this`lookups, this`objectsCache
      ensures Valid() && old(objectsCache).Keys <= objectsCache.Keys
      ensures raw == RawContinuations(snapshot, a)
    {
      raw := [];
      if IsList(snapshot, a) {
        // `GetField`, not the cache; `ListsWellFormed` rules out its exception and a null array.
        var items := FieldOf(snapshot, a, "_items");
        var backing := GetObjectFromPtrToRef(AddU64(a, items.value));
        raw := ListItems(backing.value);
      } else {
        var field := TryGetField(a, "m_continuationObject");
        if field.Some? {
          var c := GetObjectFromPtrToRef(AddU64(a, field.value));
          if c.Some? {
            raw := [c.value];
          }
        }
      }
    }

    /** The list shape: every non-null slot among the backing array's first `ComponentSize`. */
    method ListItems(arr: Address) returns (raw: seq<Address>)
      requires Valid() && arr in objectsCache
      modifies this`objectsCache
      ensures Valid() && old(objectsCache).Keys <= objectsCache.Keys
      ensures raw == SlotRefs(snapshot, arr, SlotCount(snapshot, arr))
    {
      raw := [];
      var count := objectsCache[arr].componentSize;
      var i := 0;
      while i < count
        invariant 0 <= i <= count
        invariant Valid() && old(objectsCache).Keys <= objectsCache.Keys
        invariant raw == SlotRefs(snapshot, arr, i)
      {
        var c := GetObjectFromPtrToRef(AddU64(arr, i * snapshot.pointerSize));
        if c.Some? {
          raw := raw + [c.value];
        }
        i := i + 1;
      }
    }

    /** `ParseState`: the `int` in `m_stateFlags`, or 0 when the type has no such field. */
    method ParseState(a: Address) returns (state: Int32)
      requires Valid()
      modifies this`offsetsCache, this`lookups
      ensures Valid() && state == StateOf(snapshot, a)
    {
      var field := TryGetField(a, "m_stateFlags");
      if field.Some? {
        return AsInt32(Read(snapshot, AddU64(a, field.value)) % TWO_32);
      }
      return 0;
    }

    /** `HasTaskMembersWeCareAbout`: probes the task fields in order, stopping at a miss. */
    method HasTaskMembersWeCareAbout(a: Address) returns (b: bool)
      requires Valid()
      modifies this`offsetsCache, this`lookups
      ensures Valid() && b == AsyncSelection.HasTaskMembers(snapshot, a)
    {
      var fieldsWeCareAbout := AsyncSelection.TASK_FIELDS;
      var i := 0;
      while i < |fieldsWeCareAbout|
        invariant 0 <= i <= |fieldsWeCareAbout|
        invariant Valid()
        invariant forall k :: 0 <= k < i ==> FieldOf(snapshot, a, fieldsWeCareAbout[k]).Some?
      {
        var field := TryGetField(a, fieldsWeCareAbout[i]);
        if field.None? {
          return false;
        }
        i := i + 1;
      }
      return true;
    }

    /** `IsTaskType`. */
    method IsTaskType(a: Address) returns (b: bool)
      requires Valid()
      modifies this`offsetsCache, this`lookups
      ensures Valid() && b == AsyncSelection.IsTaskType(snapshot, options, a)
    {
      var systemTask := AsyncSelection.IsSystemTask(TypeOf(snapshot, a).fullName);
      if systemTask {
        return true;
      } else if options.userDefined {
        b := HasTaskMembersWeCareAbout(a);
        return;
      }
      return false;
    }

    /** `IsAsyncType`. */
    method IsAsyncType(a: Address) returns (b: bool)
      requires Valid()
      modifies this`offsetsCache, this`lookups
      ensures Valid() && b == AsyncSelection.IsAsyncType(snapshot, options, a)
    {
      if StartsWith(TypeOf(snapshot, a).fullName, AsyncSelection.STATE_MACHINE_BOX) {
        return true;
      }
      b := false;
      if options.tasks {
        b := IsTaskType(a);
      }
    }

    /** `Matches`. */
    method Matches(a: Address) returns (b: bool)
      requires Valid()
      modifies this`offsetsCache, this`lookups
      ensures Valid() && b == AsyncSelection.Matches(snapshot, options, a)
    {
      if options.address != 0 {
        return a == options.address;
      }
      var isAsync := IsAsyncType(a);
      b := isAsync && (options.typeFilter == [] || ContainsIgnoreCase(TypeOf(snapshot, a).fullName, options.typeFilter));
    }

    /** `GetOrCreateAsyncRecord`: one record per object, created top-level, with
        `includeInReport` set to `Matches`. */
    method GetOrCreateAsyncRecord(a: Address) returns (record: AsyncRecord)
      requires Valid()
      modifies this`offsetsCache, this`lookups, this`records
      ensures Valid() && a in records && record == records[a]
      ensures a in old(records) ==> records == old(records)
      ensures a !in old(records) ==>
        records == old(records)[a := AsyncRecord(None, None, true, AsyncSelection.Matches(snapshot, options, a))]
      ensures FlagsKept(snapshot, options, old(records), records)
    {
      if a !in records {
        var m := Matches(a);
        records := records[a := AsyncRecord(None, None, true, m)];
      }
      record := records[a];
    }

    /** `GetState`: forces the record's lazy state. */
    method GetState(a: Address) returns (state: Int32)
      requires Valid()
      modifies this`offsetsCache, this`lookups, this`records
      ensures Valid() && state == StateOf(snapshot, a)
      ensures FlagsKept(snapshot, options, old(records), records)
    {
      var record := GetOrCreateAsyncRecord(a);
      if record.state.None? {
        var st := ParseState(a);
        records := records[a := record.(state := Some(st))];
      }
      state := records[a].state.value;
    }

    /** `GetContinuations`: forces the record's lazy continuations. */
    method GetContinuations(a: Address) returns (conts: seq<Address>)
      requires Valid()
      modifies this
      ensures Valid() && conts == Continuations(snapshot, a)
      ensures FlagsKept(snapshot, options, old(records), records)
    {
      var record := GetOrCreateAsyncRecord(a);
      if record.continuations.None? {
        var cs := ParseContinuations(a);
        records := records[a := record.(continuations := Some(cs))];
      }
      conts := records[a].continuations.value;
    }

    /** `IsCompleted`: a completion bit is set in the object's state. */
    method IsCompleted(a: Address) returns (b: bool)
      requires Valid()
      modifies this`offsetsCache, this`lookups, this`records
      ensures Valid() && b == AsyncSelection.Completed(snapshot, a)
      ensures FlagsKept(snapshot, options, old(records), records)
    {
      var state := GetState(a);
      b := AsyncState.IsCompleted(state);
    }

    /** `IsTopLevel`. */
    method IsTopLevel(a: Address) returns (b: bool)
      requires Valid()
      modifies this`offsetsCache, this`lookups, this`records
      ensures Valid() && b == IsTop(old(records), a)
      ensures FlagsKept(snapshot, options, old(records), records)
    {
      var record := GetOrCreateAsyncRecord(a);
      b := record.isTopLevel;
    }

    /** `SetTopLevel`: changes that one flag of that one object. */
    method SetTopLevel(a: Address, topLevel: bool)
      requires Valid()
      modifies this`offsetsCache, this`lookups, this`records
      ensures Valid()
      ensures forall c :: IsTop(records, c) == (if c == a then topLevel else IsTop(old(records), c))
      ensures forall c :: IncludeOf(snapshot, options, records, c) == IncludeOf(snapshot, options, old(records), c)
    {
      var record := GetOrCreateAsyncRecord(a);
      records := records[a := record.(isTopLevel := topLevel)];
    }

    /** `IncludeInReport`. */
    method IncludeInReport(a: Address) returns (b: bool)
      requires Valid()
      modifies this`offsetsCache, this`lookups, this`records
      ensures Valid() && b == IncludeOf(snapshot, options, old(records), a)
      ensures FlagsKept(snapshot, options, old(records), records)
    {
      var record := GetOrCreateAsyncRecord(a);
      b := record.includeInReport;
    }

    /** `SetIncludeInReport`: changes that one flag of that one object. */
    method SetIncludeInReport(a: Address, topLevel: bool)
      requires Valid()
      modifies this`offsetsCache, this`lookups, this`records
      ensures Valid()
      ensures forall c :: IncludeOf(snapshot, options, records, c) == (if c == a then topLevel else IncludeOf(snapshot, options, old(records), c))
      ensures forall c :: IsTop(records, c) == IsTop(old(records), c)
    {
      var record := GetOrCreateAsyncRecord(a);
      records := records[a := record.(includeInReport := topLevel)];
    }
  
    /**
     * `WalkContinuations`: depth-first from the root's continuations with an explicit stack
     * and a seen set. The result is the sequence of callback invocations, as (object, depth).
     */
    method WalkContinuations(root: Address) returns (visits: seq<Visit>)
      requires Valid()
      modifies this
      ensures Valid() && visits == Walk(SnapshotGraph(snapshot), root)
      ensures FlagsKept(snapshot, options, old(records), records)
    {
      ghost var g := SnapshotGraph(snapshot);
      var first := GetContinuations(root);
      var continuations := Push([], first, 1);
      StartFacts(g, root);
      assert continuations == Start(g, root);
      var seenObjs: set<Address> := {};
      visits := [];
      while continuations != []
        invariant Valid() && FlagsKept(snapshot, options, old(records), records)
        invariant OnNodes(g, continuations)
        invariant visits + WalkFrom(g, continuations, seenObjs) == Walk(g, root)
        decreases g.nodes - seenObjs, |continuations|
      {
        WalkLoopStep(g, continuations, seenObjs, visits, Walk(g, root));
        var n := |continuations| - 1;
        var top := continuations[n];
        ghost var stack := continuations;
        continuations := continuations[..n];
        if top.obj in seenObjs {
          continue;
        }
        seenObjs := seenObjs + {top.obj};
        ghost var before := records;
        var continuationObjs := GetContinuations(top.obj);
        FlagsKeptTrans(snapshot, options, old(records), before, records);
        continuations := Push(continuations, continuationObjs, top.depth + 1);
        assert continuations == Next(g, stack);
        visits := visits + [top];
      }
    }

    /**
     * The callback `CalculateTopLevelRecords` passes to the walk, for one visited object:
     * each candidate that is still top-level and is that object stops being top-level. Returns
     * the number of `--numChains` it performs.
     */
    method ClearTopLevel(asyncObjs: seq<Address>, continuationObj: Address) returns (cleared: nat)
      requires Valid()
      modifies this`offsetsCache, this`lookups, this`records
      ensures Valid()
      ensures cleared == if continuationObj in asyncObjs && IsTop(old(records), continuationObj) then 1 else 0
      ensures forall c :: IsTop(records, c) == (IsTop(old(records), c) && !(c == continuationObj && c in asyncObjs))
      ensures forall c :: IncludeOf(snapshot, options, records, c) == IncludeOf(snapshot, options, old(records), c)
    {
      cleared := 0;
      var k := 0;
      while k < |asyncObjs|
        invariant 0 <= k <= |asyncObjs|
        invariant Valid()
        invariant forall c :: IsTop(records, c) == (IsTop(old(records), c) && !(c == continuationObj && c in asyncObjs[..k]))
        invariant forall c :: IncludeOf(snapshot, options, records, c) == IncludeOf(snapshot, options, old(records), c)
        invariant cleared == if continuationObj in asyncObjs[..k] && IsTop(old(records), continuationObj) then 1 else 0
      {
        assert asyncObjs[..k + 1] == asyncObjs[..k] + [asyncObjs[k]];
        var innerObj := asyncObjs[k];
        var topLevel := IsTopLevel(innerObj);
        if topLevel && innerObj == continuationObj {
          SetTopLevel(innerObj, false);
          cleared := cleared + 1;
        }
        k := k + 1;
      }
      assert asyncObjs[..k] == asyncObjs;
    }

    /**
     * `CalculateTopLevelRecords`: walks from every candidate; a candidate some walk reaches
     * stops being top-level, once, and `chains` counts down from the number of candidates by
     * one for each such candidate.
     */
    method CalculateTopLevelRecords(asyncObjs: seq<Address>) returns (chains: int)
      requires Valid()
      modifies this
      ensures Valid()
      ensures forall c :: (IsTop(records, c) <==>
                             IsTop(old(records), c) && !(c in asyncObjs && c in ReachedBy(SnapshotGraph(snapshot), asyncObjs)))
      ensures forall c :: IncludeOf(snapshot, options, records, c) == IncludeOf(snapshot, options, old(records), c)
      ensures chains == |asyncObjs| - |Cleared(old(records), asyncObjs, ReachedBy(SnapshotGraph(snapshot), asyncObjs))|
      ensures (forall c :: c in asyncObjs ==> IsTop(old(records), c)) ==>
        chains == Chains(SnapshotGraph(snapshot), asyncObjs)
    {
      ghost var g := SnapshotGraph(snapshot);
      ghost var before := records;
      var numChains := |asyncObjs|;
      var i := 0;
      while i < |asyncObjs|
        invariant 0 <= i <= |asyncObjs|
        invariant Valid()
        invariant forall c :: IsTop(records, c) == (IsTop(before, c) && !(c in asyncObjs && c in ReachedBy(g, asyncObjs[..i])))
        invariant forall c :: IncludeOf(snapshot, options, records, c) == IncludeOf(snapshot, options, before, c)
        invariant numChains == |asyncObjs| - |Cleared(before, asyncObjs, ReachedBy(g, asyncObjs[..i]))|
      {
        var visits := WalkContinuations(asyncObjs[i]);
        var dec := ClearVisited(asyncObjs, visits, before, ReachedBy(g, asyncObjs[..i]));
        numChains := numChains - dec;
        ReachedBySnoc(g, asyncObjs, i);
        i := i + 1;
      }
      assert asyncObjs[..i] == asyncObjs;
      chains := numChains;
      if forall c :: c in asyncObjs ==> IsTop(before, c) {
        ClearedAll(before, asyncObjs, ReachedBy(g, asyncObjs));
      }
    }

    /** The callback applied to every visit of one walk, in order. */
    method ClearVisited(asyncObjs: seq<Address>, visits: seq<Visit>, ghost before: map<Address, AsyncRecord>,
                        ghost reached: set<Address>) returns (cleared: nat)
      requires Valid()
      requires forall c :: IsTop(records, c) == (IsTop(before, c) && !(c in asyncObjs && c in reached))
      modifies this`offsetsCache, this`lookups, this`records
      ensures Valid()
      ensures forall c :: IsTop(records, c) == (IsTop(before, c) && !(c in asyncObjs && c in reached + Objs(visits)))
      ensures forall c :: IncludeOf(snapshot, options, records, c) == IncludeOf(snapshot, options, old(records), c)
      ensures |Cleared(before, asyncObjs, reached + Objs(visits))| == |Cleared(before, asyncObjs, reached)| + cleared
    {
      cleared := 0;
      var j := 0;
      assert visits[..j] == [];
      assert reached + Objs(visits[..j]) == reached;
      while j < |visits|
        invariant 0 <= j <= |visits|
        invariant Valid()
        invariant forall c :: IsTop(records, c) == (IsTop(before, c) && !(c in asyncObjs && c in reached + Objs(visits[..j])))
        invariant forall c :: IncludeOf(snapshot, options, records, c) == IncludeOf(snapshot, options, old(records), c)
        invariant |Cleared(before, asyncObjs, reached + Objs(visits[..j]))| == |Cleared(before, asyncObjs, reached)| + cleared
      {
        var x := visits[j].obj;
        var dec := ClearTopLevel(asyncObjs, x);
        cleared := cleared + dec;
        ObjsSnoc(visits, j);
        ClearedStep(before, asyncObjs, reached + Objs(visits[..j]), x);
        assert reached + Objs(visits[..j + 1]) == (reached + Objs(visits[..j])) + {x};
        j := j + 1;
      }
      assert visits[..j] == visits;
    }

    /** `PrintAsyncRecord`: the record's line. */
    method PrintAsyncRecord(a: Address) returns (text: string)
      requires Valid()
      modifies this`offsetsCache, this`lookups, this`records
      ensures Valid() && text == RecordText(snapshot, a)
      ensures FlagsKept(snapshot, options, old(records), records)
    {
      var eeType := TypeOf(snapshot, a);
      var state := GetState(a);
      text := PadByNumberSize(a, true) + " " + PadByNumberSize(eeType.address, true) + " "
        + PadByNumberSize(Bits32(state), true) + " " + AsyncState.DumpState(state) + " " + eeType.fullName;
    }

    /** The callback `PrintTopLevelObjs` passes to the walk: a dot per level, then the record. */
    method PrintChain(root: Address) returns (chain: seq<string>)
      requires Valid()
      modifies this
      ensures Valid() && chain == ChainLines(snapshot, Walk(SnapshotGraph(snapshot), root))
      ensures FlagsKept(snapshot, options, old(records), records)
    {
      var visits := WalkContinuations(root);
      chain := [];
      var k := 0;
      while k < |visits|
        invariant 0 <= k <= |visits|
        invariant Valid() && FlagsKept(snapshot, options, old(records), records)
        invariant chain == ChainLines(snapshot, visits[..k])
      {
        var text := PrintAsyncRecord(visits[k].obj);
        chain := chain + [Dots(visits[k].depth) + text];
        assert Dots(visits[k].depth) + text == ChainLine(snapshot, visits[k]);
        ChainLinesSnoc(snapshot, visits, k);
        k := k + 1;
      }
      assert visits[..k] == visits;
    }

    /**
     * `PrintTopLevelObjs`: a blank line, then for each candidate that is top-level and to be
     * reported, its block.
     */
    method PrintTopLevelObjs(asyncObjs: seq<Address>) returns (lines: seq<string>)
      requires Valid()
      modifies this
      ensures Valid() && FlagsKept(snapshot, options, old(records), records)
      ensures lines == [""] + Listing(snapshot, options, ShownBy(snapshot, options, old(records), asyncObjs), asyncObjs)
    {
      ghost var shown := ShownBy(snapshot, options, records, asyncObjs);
      lines := [""];
      var i := 0;
      while i < |asyncObjs|
        invariant 0 <= i <= |asyncObjs|
        invariant Valid() && FlagsKept(snapshot, options, old(records), records)
        invariant lines == [""] + Listing(snapshot, options, shown, asyncObjs[..i])
      {
        var obj := asyncObjs[i];
        ListingSnoc(snapshot, options, shown, asyncObjs, i);
        var block := PrintIfShown(obj, shown);
        AppendAssoc([""], Listing(snapshot, options, shown, asyncObjs[..i]), block);
        lines := lines + block;
        i := i + 1;
      }
      assert asyncObjs[..i] == asyncObjs;
    }

    /** The loop body of `PrintTopLevelObjs`: an object that is not top-level or not to be
        reported is skipped. */
    method PrintIfShown(obj: Address, ghost shown: set<Address>) returns (block: seq<string>)
      requires Valid()
      requires obj in shown <==> IsTop(records, obj) && IncludeOf(snapshot, options, records, obj)
      modifies this
      ensures Valid() && FlagsKept(snapshot, options, old(records), records)
      ensures block == if obj in shown then Block(snapshot, options, obj) else []
    {
      var topLevel := IsTopLevel(obj);
      var included := false;
      if topLevel {
        included := IncludeInReport(obj);
      }
      block := [];
      if included {
        block := PrintBlock(obj);
      }
    }

    /** One shown object: its record, its chain with `--stacks`, and a blank line. */
    method PrintBlock(obj: Address) returns (block: seq<string>)
      requires Valid()
      modifies this
      ensures Valid() && FlagsKept(snapshot, options, old(records), records)
      ensures block == Block(snapshot, options, obj)
    {
      ghost var r0 := records;
      var text := PrintAsyncRecord(obj);
      ghost var r1 := records;
      var chain: seq<string> := [];
      if options.stacks {
        var conts := GetContinuations(obj);
        FlagsKeptTrans(snapshot, options, r0, r1, records);
        if conts != [] {
          ghost var r2 := records;
          chain := PrintChain(obj);
          FlagsKeptTrans(snapshot, options, r0, r2, records);
        }
      }
      block := [text] + chain + [""];
    }

    /** `PrintStats`: a fresh `HeapStats` fed every candidate, sorted, then printed. */
    method PrintStats(asyncObjs: seq<HeapObject>) returns (listing: seq<TypeStats>, total: U32)
      ensures (listing, total) == StatsOf(asyncObjs)
    {
      var stats := new HeapStats();
      var i := 0;
      while i < |asyncObjs|
        invariant 0 <= i <= |asyncObjs|
        invariant stats.Valid() && !stats.shouldSort && stats.history == StatAdditions(asyncObjs[..i])
      {
        stats.Add(asyncObjs[i].eeType, asyncObjs[i].size);
        assert StatAdditions(asyncObjs[..i + 1]) == StatAdditions(asyncObjs[..i]) + [(asyncObjs[i].eeType, asyncObjs[i].size)];
        i := i + 1;
      }
      assert asyncObjs[..i] == asyncObjs;
      stats.Sort();
      listing, total := stats.Print();
    }

    /**
     * What the enumeration has done once the objects `done` have been visited: `found` holds
     * the candidates, the object cache every async object, no record is marked non-top-level,
     * and the report flag of every cached object is set.
     */
    ghost predicate Enumerated(done: seq<HeapObject>, found: seq<HeapObject>)
      reads this
    {
      && found == AsyncSelection.Candidates(snapshot, options, done)
      && objectsCache.Keys == Elems(AsyncSelection.Addresses(AsyncSelection.AsyncObjects(snapshot, options, done)))
      && (forall a :: IsTop(records, a))
      && (forall a :: IncludeOf(snapshot, options, records, a) ==
            if a in objectsCache then AsyncSelection.Included(snapshot, options, a) else AsyncSelection.Matches(snapshot, options, a))
    }

    /**
     * The enumeration loop of `Invoke` over one heap: an async object of at least 24 bytes
     * enters the object cache (an address seen twice would throw), gets its report flag, and
     * is kept unless it has completed and `--completed` is not given.
     */
    method EnumerateHeap(objs: seq<HeapObject>, ghost done: seq<HeapObject>, ghost all: seq<HeapObject>,
                         found0: seq<HeapObject>) returns (found: seq<HeapObject>)
      requires Valid() && Enumerated(done, found0)
      requires done + objs <= all && TypesAgree(snapshot, all) && DistinctAddresses(AsyncSelection.Addresses(all))
      modifies this
      ensures Valid() && Enumerated(done + objs, found)
    {
      found := found0;
      var i := 0;
      assert done + objs[..0] == done;
      while i < |objs|
        invariant 0 <= i <= |objs|
        invariant Valid() && Enumerated(done + objs[..i], found)
      {
        var obj := objs[i];
        ghost var prefix := done + objs[..i];
        assert prefix + [obj] == done + objs[..i + 1] by {
          assert objs[..i + 1] == objs[..i] + [obj];
        }
        assert all[|prefix|] == obj && all[..|prefix|] == prefix by {
          assert (done + objs)[|prefix|] == obj;
          assert (done + objs)[..|prefix|] == prefix;
        }
        FreshAddress(snapshot, options, all, |prefix|);
        found := EnumerateObject(obj, prefix, found);
        i := i + 1;
      }
      assert objs[..i] == objs;
    }

    /** One enumerated object: too small, not async, or an async object. */
    method EnumerateObject(obj: HeapObject, ghost prefix: seq<HeapObject>, found0: seq<HeapObject>)
      returns (found: seq<HeapObject>)
      requires Valid() && Enumerated(prefix, found0)
      requires obj.eeType == TypeOf(snapshot, obj.address)
      requires obj.address !in Elems(AsyncSelection.Addresses(AsyncSelection.AsyncObjects(snapshot, options, prefix)))
      modifies this
      ensures Valid() && Enumerated(prefix + [obj], found)
    {
      EnumerateStep(snapshot, options, prefix, obj);
      found := found0;
      if obj.size >= 24 {
        var isAsync := IsAsyncType(obj.address);
        if isAsync {
          found := AddAsyncObject(obj, found0);
        }
      }
    }

    /**
     * An async object: cached, its report flag set to `Matches` and (unless `--completed`)
     * not completed, and kept under the same completed test.
     */
    method AddAsyncObject(obj: HeapObject, found0: seq<HeapObject>) returns (found: seq<HeapObject>)
      requires Valid() && obj.address !in objectsCache && obj.eeType == TypeOf(snapshot, obj.address)
      requires forall a :: IsTop(records, a)
      requires forall a :: (IncludeOf(snapshot, options, records, a) ==
                              if a in objectsCache then AsyncSelection.Included(snapshot, options, a)
                              else AsyncSelection.Matches(snapshot, options, a))
      modifies this
      ensures Valid() && objectsCache == old(objectsCache)[obj.address := obj.eeType]
      ensures forall a :: IsTop(records, a)
      ensures forall a :: (IncludeOf(snapshot, options, records, a) ==
                             if a in objectsCache then AsyncSelection.Included(snapshot, options, a)
                             else AsyncSelection.Matches(snapshot, options, a))
      ensures found == found0 + if options.completed || !AsyncSelection.Completed(snapshot, obj.address) then [obj] else []
    {
      objectsCache := objectsCache[obj.address := obj.eeType];
      var matches := Matches(obj.address);
      var reported := false;
      if matches {
        if options.completed {
          reported := true;
        } else {
          var completed := IsCompleted(obj.address);
          reported := !completed;
        }
      }
      SetIncludeInReport(obj.address, reported);
      var keep := options.completed;
      if !keep {
        var completed := IsCompleted(obj.address);
        keep := !completed;
      }
      found := found0;
      if keep {
        found := found0 + [obj];
      }
    }

    /**
     * `Invoke` once a snapshot is present, on a session with empty object and record caches:
     * enumerates every heap, prints the statistics without `--addr`, computes the top-level
     * records with `--stacks` and no `--type`, and prints the listing between its header and
     * the closing rule.
     */
    method Invoke(heaps: seq<seq<HeapObject>>) returns (report: Report)
      requires Valid() && objectsCache == map[] && records == map[]
      requires TypesAgree(snapshot, Flatten(heaps)) && DistinctAddresses(AsyncSelection.Addresses(Flatten(heaps)))
      modifies this
      ensures report == Expected(snapshot, options, Flatten(heaps))
    {
      var foundObjs: seq<HeapObject> := [];
      var h := 0;
      while h < |heaps|
        invariant 0 <= h <= |heaps|
        invariant Valid() && Enumerated(Flatten(heaps[..h]), foundObjs)
      {
        FlattenStep(heaps, h);
        FlattenPrefix(heaps, h + 1);
        foundObjs := EnumerateHeap(heaps[h], Flatten(heaps[..h]), Flatten(heaps), foundObjs);
        h := h + 1;
      }
      assert heaps[..h] == heaps;
      var stats: Option<(seq<TypeStats>, U32)> := None;
      if options.address == 0 {
        var listing, total := PrintStats(foundObjs);
        stats := Some((listing, total));
      }
      var cands := AsyncSelection.Addresses(foundObjs);
      ghost var g := SnapshotGraph(snapshot);
      ghost var cache := objectsCache;
      var chains: Option<int> := None;
      if StacksMode(options) {
        var n := CalculateTopLevelRecords(cands);
        chains := Some(n);
      }
      assert forall a :: IsTop(records, a) == !(StacksMode(options) && a in cands && a in ReachedBy(g, cands));
      ShownAfterTopLevel(snapshot, options, Flatten(heaps), cache, records);
      var listingLines := PrintTopLevelObjs(cands);
      report := Report(stats, chains, ["", Header()] + listingLines + [SEPARATOR]);
      FramedLines("", Header(), "", Listing(snapshot, options, Shown(snapshot, options, cands), cands), SEPARATOR);
    }
  }

  /** The candidates a walk has cleared: top-level before, reached since. */
  ghost function Cleared(before: map<Address, AsyncRecord>, cands: seq<Address>, reached: set<Address>): set<Address>
  {
    set c | c in cands && IsTop(before, c) && c in reached
  }

  /** Reaching one more object clears at most that one candidate. */
  lemma ClearedStep(before: map<Address, AsyncRecord>, cands: seq<Address>, reached: set<Address>, x: Address)
    ensures |Cleared(before, cands, reached + {x})| ==
      |Cleared(before, cands, reached)| + (if x in cands && IsTop(before, x) && x !in reached then 1 else 0)
  {
    var now := Cleared(before, cands, reached + {x});
    var was := Cleared(before, cands, reached);
    var added: set<Address> := if x in cands && IsTop(before, x) && x !in reached then {x} else {};
    forall y
      ensures y in now <==> y in was + added
    {
    }
    assert now == was + added;
    assert was * added == {};
  }

  /** When every candidate starts top-level, the cleared ones are the reached candidates. */
  lemma ClearedAll(before: map<Address, AsyncRecord>, cands: seq<Address>, reached: set<Address>)
    requires forall c :: c in cands ==> IsTop(before, c)
    ensures Cleared(before, cands, reached) == Elems(cands) * reached
  {
  }

  lemma ObjsSnoc(visits: seq<Visit>, j: nat)
    requires j < |visits|
    ensures Objs(visits[..j + 1]) == Objs(visits[..j]) + {visits[j].obj}
  {
    PopFacts(visits[..j + 1]);
    assert visits[..j + 1][..j] == visits[..j];
  }

  /** The lines `aotdumpasync` writes, apart from the statistics, the chain count and timings. */
  datatype Report =
    | NoRuntime
    | Report(stats: Option<(seq<TypeStats>, U32)>, chains: Option<int>, lines: seq<string>)

  const SEPARATOR := "--------------------------------------------------------------------------------------"

  /** The column header of the listing: three titles padded to 18 columns, then the rest. */
  function Header(): string
  {
    PadHeader("Address") + " " + PadHeader("EEtype") + " " + PadHeader("State") + " State/Type"
  }

  /** The line `PrintAsyncRecord` writes: address, type address and state in hex columns, the
      names of the state's flags and the type's name. */
  function RecordText(s: Snapshot, a: Address): string
  {
    RecordLine(a, TypeOf(s, a).address, Bits32(StateOf(s, a)), AsyncState.DumpState(StateOf(s, a)), TypeOf(s, a).fullName)
  }

  function RecordLine(address: Address, typeAddress: Address, stateBits: U32, description: string, typeName: string): string
  {
    PadByNumberSize(address, true) + " " + PadByNumberSize(typeAddress, true) + " "
      + PadByNumberSize(stateBits, true) + " " + description + " " + typeName
  }

  function Dots(depth: nat): string
  {
    seq(depth, _ => '.')
  }

  /** The line the walk's callback writes for one visit: a dot per level, then the record. */
  function ChainLine(s: Snapshot, v: Visit): string
  {
    Dots(v.depth) + RecordText(s, v.obj)
  }

  /** One line per visit of a walk, in visit order. */
  function ChainLines(s: Snapshot, visits: seq<Visit>): (r: seq<string>)
  {
    if visits == [] then [] else ChainLines(s, visits[..|visits| - 1]) + [ChainLine(s, visits[|visits| - 1])]
  }

  /** The block of one shown object. */
  function Block(s: Snapshot, o: AsyncSelection.Options, a: Address): seq<string>
  {
    SnapshotClosed(s);
    [RecordText(s, a)]
      + (if o.stacks && Continuations(s, a) != [] then ChainLines(s, Walk(SnapshotGraph(s), a)) else [])
      + [""]
  }

  /** The blocks of the candidates in `shown`, in candidate order. */
  function Listing(s: Snapshot, o: AsyncSelection.Options, shown: set<Address>, cands: seq<Address>): seq<string>
  {
    if cands == [] then []
    else
      var n := |cands| - 1;
      Listing(s, o, shown, cands[..n]) + (if cands[n] in shown then Block(s, o, cands[n]) else [])
  }

  /** The candidates `PrintTopLevelObjs` shows given the records: top-level and to be reported. */
  ghost function ShownBy(s: Snapshot, o: AsyncSelection.Options, records: map<Address, AsyncRecord>,
                         cands: seq<Address>): set<Address>
  {
    set a | a in cands && IsTop(records, a) && IncludeOf(s, o, records, a)
  }

  /** Top-level records are computed with `--stacks` and without `--type`. */
  predicate StacksMode(o: AsyncSelection.Options)
  {
    o.stacks && o.typeFilter == []
  }

  /** The candidates the report shows: those that match and, in stacks mode, that no
      candidate's walk reaches. */
  ghost function Shown(s: Snapshot, o: AsyncSelection.Options, cands: seq<Address>): set<Address>
  {
    SnapshotClosed(s);
    set a | a in cands && AsyncSelection.Matches(s, o, a) && !(StacksMode(o) && a in ReachedBy(SnapshotGraph(s), cands))
  }

  /** The (type, size) pairs `PrintStats` adds. */
  function StatAdditions(objs: seq<HeapObject>): (r: seq<(EEType, U64)>)
    ensures |r| == |objs|
    ensures forall i :: 0 <= i < |objs| ==> r[i] == (objs[i].eeType, objs[i].size)
  {
    seq(|objs|, i requires 0 <= i < |objs| => (objs[i].eeType, objs[i].size))
  }

  /** The statistics `PrintStats` prints: the per-type records by total size, and the count. */
  function StatsOf(objs: seq<HeapObject>): (seq<TypeStats>, U32)
  {
    AggregateWellFormed(StatAdditions(objs));
    (OrderBy(Values(Aggregate(StatAdditions(objs))), TotalSizeKey), |objs| % TWO_32)
  }

  /** The whole report for the objects of all heaps, `objs`. */
  ghost function Expected(s: Snapshot, o: AsyncSelection.Options, objs: seq<HeapObject>): Report
  {
    SnapshotClosed(s);
    var found := AsyncSelection.Candidates(s, o, objs);
    var cands := AsyncSelection.Addresses(found);
    Report(if o.address == 0 then Some(StatsOf(found)) else None,
           if StacksMode(o) then Some(Chains(SnapshotGraph(s), cands)) else None,
           ["", Header(), ""] + Listing(s, o, Shown(s, o, cands), cands) + [SEPARATOR])
  }

  /** Every heap object is of the type its type pointer names. */
  ghost predicate TypesAgree(s: Snapshot, objs: seq<HeapObject>)
  {
    forall i :: 0 <= i < |objs| ==> objs[i].eeType == TypeOf(s, objs[i].address)
  }

  /** One more enumerated object extends the async objects and the candidates by it or by nothing. */
  lemma EnumerateStep(s: Snapshot, o: AsyncSelection.Options, prefix: seq<HeapObject>, obj: HeapObject)
    ensures AsyncSelection.AsyncObjects(s, o, prefix + [obj]) ==
      AsyncSelection.AsyncObjects(s, o, prefix) + (if AsyncSelection.IsAsyncObject(s, o, obj) then [obj] else [])
    ensures AsyncSelection.Candidates(s, o, prefix + [obj]) ==
      AsyncSelection.Candidates(s, o, prefix) + (if AsyncSelection.IsCandidate(s, o, obj) then [obj] else [])
    ensures Elems(AsyncSelection.Addresses(AsyncSelection.AsyncObjects(s, o, prefix + [obj]))) ==
      Elems(AsyncSelection.Addresses(AsyncSelection.AsyncObjects(s, o, prefix)))
        + (if AsyncSelection.IsAsyncObject(s, o, obj) then {obj.address} else {})
  {
    assert (prefix + [obj])[..|prefix|] == prefix;
    var before := AsyncSelection.AsyncObjects(s, o, prefix);
    var after := AsyncSelection.AsyncObjects(s, o, prefix + [obj]);
    if AsyncSelection.IsAsyncObject(s, o, obj) {
      assert AsyncSelection.Addresses(after) == AsyncSelection.Addresses(before) + [obj.address];
    } else {
      assert after == before;
    }
  }

  /** The object at position `k` has an address no earlier async object has. */
  lemma FreshAddress(s: Snapshot, o: AsyncSelection.Options, all: seq<HeapObject>, k: nat)
    requires k < |all| && DistinctAddresses(AsyncSelection.Addresses(all))
    ensures all[k].address !in Elems(AsyncSelection.Addresses(AsyncSelection.AsyncObjects(s, o, all[..k])))
  {
    var asyncs := AsyncSelection.AsyncObjects(s, o, all[..k]);
    var addrs := AsyncSelection.Addresses(asyncs);
    AsyncSelection.AsyncObjectsIn(s, o, all[..k]);
    forall j | 0 <= j < |addrs|
      ensures addrs[j] != all[k].address
    {
      assert asyncs[j] in asyncs;
      var m :| 0 <= m < k && all[..k][m] == asyncs[j];
      assert AsyncSelection.Addresses(all)[m] != AsyncSelection.Addresses(all)[k];
    }
  }

  /** Once the top-level records are computed, the candidates `PrintTopLevelObjs` shows are
      exactly the ones the report is specified to show. */
  lemma ShownAfterTopLevel(s: Snapshot, o: AsyncSelection.Options, objs: seq<HeapObject>,
                           cache: map<Address, EEType>, records: map<Address, AsyncRecord>)
    requires Closed(SnapshotGraph(s))
    requires cache.Keys == Elems(AsyncSelection.Addresses(AsyncSelection.AsyncObjects(s, o, objs)))
    requires forall a :: (IncludeOf(s, o, records, a) ==
                            if a in cache then AsyncSelection.Included(s, o, a) else AsyncSelection.Matches(s, o, a))
    requires var cands := AsyncSelection.Addresses(AsyncSelection.Candidates(s, o, objs));
      forall a :: IsTop(records, a) == !(StacksMode(o) && a in cands && a in ReachedBy(SnapshotGraph(s), cands))
    ensures var cands := AsyncSelection.Addresses(AsyncSelection.Candidates(s, o, objs));
      ShownBy(s, o, records, cands) == Shown(s, o, cands)
  {
    var found := AsyncSelection.Candidates(s, o, objs);
    var asyncs := AsyncSelection.AsyncObjects(s, o, objs);
    var cands := AsyncSelection.Addresses(found);
    AsyncSelection.CandidatesAsync(s, o, objs);
    forall a | a in cands
      ensures IncludeOf(s, o, records, a) == AsyncSelection.Matches(s, o, a)
    {
      var i :| 0 <= i < |found| && cands[i] == a;
      assert found[i] in asyncs;
      var j :| 0 <= j < |asyncs| && asyncs[j] == found[i];
      assert AsyncSelection.Addresses(asyncs)[j] == a;
      AsyncSelection.CandidateIncluded(s, o, found[i]);
    }
  }

  lemma ChainLinesSnoc(s: Snapshot, visits: seq<Visit>, k: nat)
    requires k < |visits|
    ensures ChainLines(s, visits[..k + 1]) == ChainLines(s, visits[..k]) + [ChainLine(s, visits[k])]
  {
    assert visits[..k + 1][..k] == visits[..k];
  }

  lemma ListingSnoc(s: Snapshot, o: AsyncSelection.Options, shown: set<Address>, cands: seq<Address>, i: nat)
    requires i < |cands|
    ensures Listing(s, o, shown, cands[..i + 1]) ==
      Listing(s, o, shown, cands[..i]) + (if cands[i] in shown then Block(s, o, cands[i]) else [])
  {
    assert cands[..i + 1][..i] == cands[..i];
  }

  lemma AppendAssoc<T>(a: seq<T>, b: seq<T>, c: seq<T>)
    ensures a + b + c == a + (b + c)
  {
  }

  lemma FramedLines<T>(a: T, b: T, c: T, body: seq<T>, d: T)
    ensures [a, b] + ([c] + body) + [d] == [a, b, c] + body + [d]
  {
  }

  /** What the report gives a snapshot the command can process. */
  ghost predicate Processable(s: Snapshot, heaps: seq<seq<HeapObject>>)
  {
    && WellFormedTypes(s) && ListsWellFormed(s)
    && TypesAgree(s, Flatten(heaps)) && DistinctAddresses(AsyncSelection.Addresses(Flatten(heaps)))
  }

  /**
   * `aotdumpasync`: without a Native AOT runtime only the error is reported; otherwise a new
   * command object with empty caches runs over the heaps.
   */
  method Command(dump: Option<(Snapshot, seq<seq<HeapObject>>)>, o: AsyncSelection.Options) returns (report: Report)
    requires dump.Some? ==> Processable(dump.value.0, dump.value.1)
    ensures dump.None? <==> report == NoRuntime
    ensures dump.Some? ==> report == Expected(dump.value.0, o, Flatten(dump.value.1))
  {
    if dump.None? {
      return NoRuntime;
    }
    var session := new Session(dump.value.0, o);
    report := session.Invoke(dump.value.1);
  }

  /** An 18-column field written by `PadByNumberSize(n)`: `0x`, then `n` in hex padded with
      spaces, so that the digits read back as `n`. */
  ghost predicate Column(field: string, n: nat)
  {
    && |field| == 18 && field[..2] == "0x"
    && TrimEnd(field[2..]) == Hex(n)
    && HexValue(TrimEnd(field[2..])) == n
  }

  lemma PadColumn(n: U64)
    ensures Column(PadByNumberSize(n, true), n)
  {
    PadByNumberSizeWidth(n, true);
    PadByNumberSizeSignifier(n);
    HexRoundTrip(n);
  }

  /**
   * The record line is three 18-column hex fields, each reading back as its value, then the
   * state's description and the type's name.
   */
  lemma RecordLineColumns(address: Address, typeAddress: Address, stateBits: U32, description: string, typeName: string)
    ensures |RecordLine(address, typeAddress, stateBits, description, typeName)| >= 57
    ensures Column(RecordLine(address, typeAddress, stateBits, description, typeName)[..18], address)
    ensures Column(RecordLine(address, typeAddress, stateBits, description, typeName)[19..37], typeAddress)
    ensures Column(RecordLine(address, typeAddress, stateBits, description, typeName)[38..56], stateBits)
    ensures RecordLine(address, typeAddress, stateBits, description, typeName)[57..] == description + " " + typeName
  {
    PadColumn(address);
    PadColumn(typeAddress);
    PadColumn(stateBits);
    ThreeColumns(PadByNumberSize(address, true), PadByNumberSize(typeAddress, true), PadByNumberSize(stateBits, true),
                 description, typeName);
  }

  lemma ThreeColumns(c1: string, c2: string, c3: string, description: string, typeName: string)
    requires |c1| == |c2| == |c3| == 18
    ensures |c1 + " " + c2 + " " + c3 + " " + description + " " + typeName| >= 57
    ensures (c1 + " " + c2 + " " + c3 + " " + description + " " + typeName)[..18] == c1
    ensures (c1 + " " + c2 + " " + c3 + " " + description + " " + typeName)[19..37] == c2
    ensures (c1 + " " + c2 + " " + c3 + " " + description + " " + typeName)[38..56] == c3
    ensures (c1 + " " + c2 + " " + c3 + " " + description + " " + typeName)[57..] == description + " " + typeName
  {
    var line := c1 + " " + c2 + " " + c3 + " " + description + " " + typeName;
    var rest := description + " " + typeName;
    assert line == c1 + " " + c2 + " " + c3 + " " + rest;
  }

  /** The state column reads back as the state itself. */
  lemma Int32RoundTrip(v: Int32)
    ensures AsInt32(Bits32(v)) == v
  {
  }

  /** In stacks mode, with distinct heap addresses, the chain count is the number of
      top-level candidates. */
  lemma ExpectedChains(s: Snapshot, o: AsyncSelection.Options, objs: seq<HeapObject>)
    requires DistinctAddresses(AsyncSelection.Addresses(objs))
    ensures Closed(SnapshotGraph(s))
    ensures var cands := AsyncSelection.Addresses(AsyncSelection.Candidates(s, o, objs));
      Expected(s, o, objs).chains == if StacksMode(o) then Some(|TopLevel(SnapshotGraph(s), cands)|) else None
  {
    SnapshotClosed(s);
    var cands := AsyncSelection.Addresses(AsyncSelection.Candidates(s, o, objs));
    AsyncSelection.CandidatesDistinct(s, o, objs);
    ChainsCountTopLevel(SnapshotGraph(s), cands);
  }

  /** Without `--addr` the statistics are the candidates' per-type records, sorted by total
      size and nothing lost, with the candidate count (modulo 2^32) as their total. */
  lemma ExpectedStats(s: Snapshot, o: AsyncSelection.Options, objs: seq<HeapObject>)
    ensures WellFormed(Aggregate(StatAdditions(AsyncSelection.Candidates(s, o, objs))))
    ensures var found := AsyncSelection.Candidates(s, o, objs);
      && (o.address == 0 <==> Expected(s, o, objs).stats.Some?)
      && (o.address == 0 ==>
            var (listing, total) := Expected(s, o, objs).stats.value;
            && SortedBy(listing, TotalSizeKey)
            && multiset(listing) == multiset(Values(Aggregate(StatAdditions(found))))
            && total == |found| % TWO_32 == SumCounts(listing) % TWO_32)
  {
    var found := AsyncSelection.Candidates(s, o, objs);
    AggregateWellFormed(StatAdditions(found));
    var values := Values(Aggregate(StatAdditions(found)));
    OrderBySortedPermutation(values, TotalSizeKey);
    SumCountsOrderBy(values, TotalSizeKey);
    AggregateTotal(StatAdditions(found));
  }

  /**
   * A candidate is listed when it matches and, in stacks mode, no candidate's continuation
   * chain reaches it; with `--addr` that is at most the object at that address.
   */
  lemma ShownIff(s: Snapshot, o: AsyncSelection.Options, cands: seq<Address>, a: Address)
    ensures a in Shown(s, o, cands) <==>
        a in cands && AsyncSelection.Matches(s, o, a)
        && !(StacksMode(o) && exists r :: r in cands && Reaches(SnapshotGraph(s), r, a))
    ensures o.address != 0 && a in Shown(s, o, cands) ==> a == o.address
  {
    SnapshotClosed(s);
    ReachedByIff(SnapshotGraph(s), cands, a);
  }
}
