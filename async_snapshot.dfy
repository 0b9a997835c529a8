/**
 * What `aotdumpasync` reads from the dump, as pure functions of one immutable snapshot: memory
 * words, object types, field offsets, and from them an object's state flags, its raw
 * continuations and their resolution through `ResolveContinuation`'s unwrap rules
 * (NativeAOTDumpAsync.cs:360-479). The session with its caches (module DumpAsync) is proved to
 * compute exactly these.
 */
module AsyncSnapshot {
  import opened Wrappers
  import opened Numerics
  import opened Text
  import opened HeapModel
  import opened AsyncGraph

  /**
   * The dump as the command sees it:
   *  - `memory`: the pointer-sized word stored at each readable address (`Reader.Read<SizeT>`);
   *    an `int` read is the low 32 bits of the word at its address (little-endian);
   *  - `types`: the type descriptors, by their own address;
   *  - `fields`: the field offsets the type service knows, by (type name, field name), i.e.
   *    what `TypeService.TryGetType(name)` followed by `TryGetField(field)` finds;
   *  - `pointerSize`: `Reader.SizeOf<SizeT>()`.
   */
  datatype Snapshot = Snapshot(memory: map<Address, U64>, types: map<Address, EEType>,
                               fields: map<(string, string), U32>, pointerSize: nat)

  /** Every type descriptor sits at its own address. */
  ghost predicate WellFormedTypes(s: Snapshot)
  {
    forall t :: t in s.types ==> s.types[t].address == t
  }

  /** The word at `a`; an address the dump does not hold reads as zero. */
  function Read(s: Snapshot, a: Address): U64
  {
    if a in s.memory then s.memory[a] else 0
  }

  /** The type descriptor at `t`; one the snapshot does not know has no name. */
  function TypeAt(s: Snapshot, t: Address): EEType
  {
    if t in s.types then s.types[t] else EEType(t, "", 0, 0)
  }

  /** `obj.Type`: an object's first word is its type pointer. */
  function TypeOf(s: Snapshot, a: Address): EEType
  {
    TypeAt(s, Read(s, a))
  }

  /** `GetField` for objects of the type at `t`: the offset, or none where it throws. */
  function FieldAt(s: Snapshot, t: Address, name: string): Option<U32>
  {
    var key := (TypeAt(s, t).fullName, name);
    if key in s.fields then Some(s.fields[key]) else None
  }

  /** `GetField(obj, name)` for the object at `a`. */
  function FieldOf(s: Snapshot, a: Address, name: string): Option<U32>
  {
    FieldAt(s, Read(s, a), name)
  }

  /** `GetObjectFromPtrToRef(a + offset of name)`: the object the field refers to, if the
      field exists and is not null. */
  function FieldTarget(s: Snapshot, a: Address, name: string): (r: Option<Address>)
    ensures r.Some? ==> r.value != 0 && r.value in Universe(s)
  {
    match FieldOf(s, a, name)
    case None => None
    case Some(off) =>
      var p := Read(s, AddU64(a, off));
      if p == 0 then None else Some(p)
  }

  /** One unwrap step: follow the field when it leads somewhere, otherwise stay. */
  function Hop(s: Snapshot, a: Address, name: string): Address
  {
    match FieldTarget(s, a, name)
    case None => a
    case Some(p) => p
  }

  /** Every object the snapshot can refer to: the non-null words of memory. */
  function Universe(s: Snapshot): set<Address>
  {
    set w | w in s.memory.Values && w != 0
  }

  const CONTINUATION_WRAPPER := "S_P_CoreLib_System_Runtime_CompilerServices_AsyncMethodBuilderCore_ContinuationWrapper"

  /**
   * `ResolveContinuation`: a state machine is kept; otherwise an object with `m_task` is
   * replaced by its task and nothing else is tried; otherwise the object is replaced through
   * `m_action` (when present) and then through `_target`, and after a `_target` hop a
   * continuation wrapper is replaced by its `_continuation`. A null read never replaces.
   */
  function Resolve(s: Snapshot, a: Address): (r: Address)
    ensures a != 0 ==> r != 0
    ensures r == a || r in Universe(s)
  {
    if FieldOf(s, a, "StateMachine").Some? then a
    else if FieldOf(s, a, "m_task").Some? then Hop(s, a, "m_task")
    else ThroughDelegate(s, a)
  }

  /** The last rule: through `m_action` when present, then through `_target`, unwrapping a
      continuation wrapper found there. */
  function ThroughDelegate(s: Snapshot, a: Address): (r: Address)
    ensures a != 0 ==> r != 0
    ensures r == a || r in Universe(s)
  {
    var b := Hop(s, a, "m_action");
    match FieldTarget(s, b, "_target")
    case None => b
    case Some(t) => Unwrapped(s, t)
  }

  /** A continuation wrapper with a `_continuation` field stands for its continuation. */
  function Unwrapped(s: Snapshot, t: Address): (r: Address)
    ensures t != 0 ==> r != 0
    ensures r == t || r in Universe(s)
  {
    if StartsWith(TypeOf(s, t).fullName, CONTINUATION_WRAPPER) && FieldOf(s, t, "_continuation").Some?
    then Hop(s, t, "_continuation")
    else t
  }

  /** A state machine box, or an object whose unwrap fields are all absent or null, resolves
      to itself. */
  lemma ResolveKeeps(s: Snapshot, a: Address)
    requires || FieldOf(s, a, "StateMachine").Some?
             || (FieldTarget(s, a, "m_task").None? && FieldOf(s, a, "m_task").Some?)
             || (FieldOf(s, a, "m_task").None? && FieldTarget(s, a, "m_action").None?
                 && FieldTarget(s, a, "_target").None?)
    ensures Resolve(s, a) == a
  {
  }

  /** An object with `m_task` and no `StateMachine` resolves to its task and no further, even
      when the task itself has unwrap fields. */
  lemma ResolveTaskStops(s: Snapshot, a: Address)
    requires FieldOf(s, a, "StateMachine").None? && FieldTarget(s, a, "m_task").Some?
    ensures Resolve(s, a) == FieldTarget(s, a, "m_task").value
  {
  }

  const LIST_PREFIX := "S_P_CoreLib_System_Collections_Generic_List_1"

  /** `IsList`: the continuation object is a `List<T>` of continuations. */
  predicate IsList(s: Snapshot, a: Address)
  {
    StartsWith(TypeOf(s, a).fullName, LIST_PREFIX)
  }

  /** The list's `_items` backing array, when the field exists and is not null. */
  function ListArray(s: Snapshot, a: Address): Option<Address>
  {
    FieldTarget(s, a, "_items")
  }

  /** `ParseContinuations` dereferences `_items` without checks: it throws when the field is
      missing and fails on a null array. A snapshot it can process has neither. */
  ghost predicate ListsWellFormed(s: Snapshot)
  {
    forall a: Address :: IsList(s, a) ==> ListArray(s, a).Some?
  }

  /** The word in slot `i` of the backing array, at `arr + i * pointer size`. */
  function Slot(s: Snapshot, arr: Address, i: nat): U64
  {
    Read(s, AddU64(arr, i * s.pointerSize))
  }

  /** The non-null words of slots `0 .. n-1`, in slot order. */
  function SlotRefs(s: Snapshot, arr: Address, n: nat): seq<Address>
  {
    if n == 0 then []
    else SlotRefs(s, arr, n - 1) + (if Slot(s, arr, n - 1) == 0 then [] else [Slot(s, arr, n - 1)])
  }

  /** The slot references are exactly the non-null slot words, at most one per slot. */
  lemma {:induction false} SlotRefsIff(s: Snapshot, arr: Address, n: nat, x: Address)
    ensures |SlotRefs(s, arr, n)| <= n
    ensures x in SlotRefs(s, arr, n) <==> x != 0 && exists i :: 0 <= i < n && Slot(s, arr, i) == x
  {
    if n > 0 {
      SlotRefsIff(s, arr, n - 1, x);
    }
  }

  /** The number of slots `ParseContinuations` scans: the array's `ComponentSize`. */
  function SlotCount(s: Snapshot, arr: Address): nat
  {
    TypeOf(s, arr).componentSize
  }

  /**
   * The raw references `ParseContinuations` collects before resolution: for a list, the
   * non-null slots of its backing array; otherwise the `m_continuationObject` field's target,
   * if any. (The two failure cases of the list shape, excluded by `ListsWellFormed`, give none.)
   */
  function RawContinuations(s: Snapshot, a: Address): seq<Address>
  {
    if IsList(s, a) then
      match ListArray(s, a)
      case None => []
      case Some(arr) => SlotRefs(s, arr, SlotCount(s, arr))
    else
      match FieldTarget(s, a, "m_continuationObject")
      case None => []
      case Some(c) => [c]
  }

  /** What `GetContinuations` yields: each raw reference, resolved. */
  function Continuations(s: Snapshot, a: Address): seq<Address>
  {
    seq(|RawContinuations(s, a)|, i requires 0 <= i < |RawContinuations(s, a)| => Resolve(s, RawContinuations(s, a)[i]))
  }

  /** A non-list yields at most one reference: the target of `m_continuationObject`. */
  lemma RawContinuationsSingle(s: Snapshot, a: Address, x: Address)
    requires !IsList(s, a)
    ensures |RawContinuations(s, a)| <= 1
    ensures x in RawContinuations(s, a) <==> FieldTarget(s, a, "m_continuationObject") == Some(x)
  {
  }

  /** A list yields one reference per non-null slot among the first `ComponentSize` slots of
      its backing array. */
  lemma RawContinuationsList(s: Snapshot, a: Address, x: Address)
    requires IsList(s, a) && ListArray(s, a).Some?
    ensures |RawContinuations(s, a)| <= SlotCount(s, ListArray(s, a).value)
    ensures x in RawContinuations(s, a) <==>
      x != 0 && exists i :: 0 <= i < SlotCount(s, ListArray(s, a).value) && Slot(s, ListArray(s, a).value, i) == x
  {
    var arr := ListArray(s, a).value;
    SlotRefsIff(s, arr, SlotCount(s, arr), x);
  }

  /** No raw reference is null, and every one is a word of memory. */
  lemma RawContinuationsNonNull(s: Snapshot, a: Address, x: Address)
    requires x in RawContinuations(s, a)
    ensures x != 0 && x in Universe(s)
  {
    if IsList(s, a) {
      var arr := ListArray(s, a).value;
      SlotListNonNull(s, arr, x);
    } else {
      RawContinuationsSingle(s, a, x);
    }
  }

  lemma SlotListNonNull(s: Snapshot, arr: Address, x: Address)
    requires x in SlotRefs(s, arr, SlotCount(s, arr))
    ensures x != 0 && x in Universe(s)
  {
    SlotRefsNonNull(s, arr, SlotCount(s, arr), x);
  }

  lemma {:induction false} SlotRefsNonNull(s: Snapshot, arr: Address, n: nat, x: Address)
    requires x in SlotRefs(s, arr, n)
    ensures x != 0 && x in Universe(s)
  {
    if x in SlotRefs(s, arr, n - 1) {
      SlotRefsNonNull(s, arr, n - 1, x);
    } else {
      SlotInUniverse(s, arr, n - 1);
    }
  }

  lemma SlotInUniverse(s: Snapshot, arr: Address, i: nat)
    requires Slot(s, arr, i) != 0
    ensures Slot(s, arr, i) in Universe(s)
  {
    ReadInUniverse(s, AddU64(arr, i * s.pointerSize));
  }

  lemma ReadInUniverse(s: Snapshot, a: Address)
    requires Read(s, a) != 0
    ensures Read(s, a) in Universe(s)
  {
    assert s.memory[a] in s.memory.Values;
  }

  /** Every continuation is a non-null object of the snapshot. */
  lemma ContinuationsInUniverse(s: Snapshot, a: Address, c: Address)
    requires c in Continuations(s, a)
    ensures c != 0 && c in Universe(s)
  {
    var i :| 0 <= i < |Continuations(s, a)| && Continuations(s, a)[i] == c;
    RawContinuationsNonNull(s, a, RawContinuations(s, a)[i]);
  }

  /** `ParseState`: the `int` in `m_stateFlags`, or 0 when the type has no such field. */
  function StateOf(s: Snapshot, a: Address): Int32
  {
    match FieldOf(s, a, "m_stateFlags")
    case None => 0
    case Some(off) => AsInt32(Read(s, AddU64(a, off)) % TWO_32)
  }

  /** The continuation graph of the snapshot: each object's resolved continuations. */
  function SnapshotGraph(s: Snapshot): Graph
  {
    Graph((a: Address) => Continuations(s, a), Universe(s))
  }

  /** Continuations never leave the snapshot, so the walk over this graph is defined. */
  lemma SnapshotClosed(s: Snapshot)
    ensures Closed(SnapshotGraph(s))
  {
    var g := SnapshotGraph(s);
    forall a, c | c in g.succ(a) ensures c in g.nodes {
      ContinuationsInUniverse(s, a, c);
    }
  }

  /**
   * An example dump: a task at 0x1000 whose continuation is an `Action` at 0x2000; the
   * action's `_target` is a continuation wrapper at 0x3000, whose `_continuation` leads to
   * a state machine box at 0x4000.
   */
  const BoxName := "S_P_CoreLib_System_Runtime_CompilerServices_AsyncTaskMethodBuilder_1_AsyncStateMachineBox_1<Demo>"
  const WrapperName := CONTINUATION_WRAPPER + "<Demo>"

  function WrapperSnapshot(): Snapshot
  {
    Snapshot(
      map[0x1000 := 0x100, 0x1008 := 0x2000, 0x2000 := 0x200, 0x2008 := 0x3000,
          0x3000 := 0x300, 0x3010 := 0x4000, 0x4000 := 0x400],
      map[0x100 := EEType(0x100, "S_P_CoreLib_System_Threading_Tasks_Task", 24, 0),
          0x200 := EEType(0x200, "S_P_CoreLib_System_Action", 32, 0),
          0x300 := EEType(0x300, WrapperName, 24, 0),
          0x400 := EEType(0x400, BoxName, 40, 0)],
      map[("S_P_CoreLib_System_Threading_Tasks_Task", "m_continuationObject") := 8,
          ("S_P_CoreLib_System_Action", "_target") := 8,
          (WrapperName, "_continuation") := 16,
          (BoxName, "StateMachine") := 24],
      8)
  }

  /** The action resolves through its target and the wrapper to the state machine box, which
      is the task's one continuation. */
  lemma WrapperResolves(s: Snapshot)
    requires s == WrapperSnapshot()
    ensures Resolve(s, 0x2000) == 0x4000
    ensures Continuations(s, 0x1000) == [0x4000]
  {
    assert !IsList(s, 0x1000);
    assert FieldTarget(s, 0x1000, "m_continuationObject") == Some(0x2000);
    assert FieldOf(s, 0x2000, "StateMachine").None? && FieldOf(s, 0x2000, "m_task").None?;
    assert FieldOf(s, 0x2000, "m_action").None?;
    assert FieldTarget(s, 0x2000, "_target") == Some(0x3000);
    assert Resolve(s, 0x2000) == Unwrapped(s, 0x3000);
    assert StartsWith(TypeOf(s, 0x3000).fullName, CONTINUATION_WRAPPER);
    assert FieldTarget(s, 0x3000, "_continuation") == Some(0x4000);
  }
}
