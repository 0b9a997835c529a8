/**
 * Which heap objects `aotdumpasync` treats as async objects, which it keeps as candidates and
 * which it reports (NativeAOTDumpAsync.cs:100-126, 526-598), as pure functions of the snapshot
 * and the command's options. The session's methods of the same names compute these.
 */
module AsyncSelection {
  import opened Wrappers
  import opened Numerics
  import opened Text
  import opened HeapModel
  import opened AsyncSnapshot
  import AsyncState

  /** The command line: `--type`, `--addr`, `--tasks`, `--stacks`, `--completed`,
      `--userdefined`. A missing `--type` is the empty string. */
  datatype Options = Options(typeFilter: string, address: Address, tasks: bool, stacks: bool,
                             completed: bool, userDefined: bool)

  const STATE_MACHINE_BOX := "S_P_CoreLib_System_Runtime_CompilerServices_AsyncTaskMethodBuilder_1_AsyncStateMachineBox_1<"

  /** The library task types recognised by prefix. */
  const TASK_PREFIXES: seq<string> := [
    "S_P_CoreLib_System_Threading_Tasks_Task_1<",
    "S_P_CoreLib_System_Threading_Tasks_Task_DelayPromiseWithCancellation",
    "S_P_CoreLib_System_Threading_Tasks_Task_WhenAllPromise",
    "S_P_CoreLib_System_Threading_Tasks_TaskFactory_CompleteOnInvokePromise",
    "S_P_CoreLib_System_Threading_Tasks_UnwrapPromise_1",
    "S_P_CoreLib_System_Threading_Tasks_ContinuationResultTaskFromTask_1",
    "S_P_CoreLib_System_Threading_Tasks_ContinuationTaskFromResultTask_1",
    "S_P_CoreLib_System_Threading_Tasks_Task_TwoTaskWhenAnyPromise_1",
    "S_P_CoreLib_System_Threading_Tasks_ContinuationResultTaskFromResultTask_2",
    "S_P_CoreLib_System_Threading_Tasks_ContinuationTaskFromTask"
  ]

  /** The non-generic task type, recognised by its exact name. */
  const TASK := "S_P_CoreLib_System_Threading_Tasks_Task"

  /** The fields a user-defined type needs to pass for a task. */
  const TASK_FIELDS: seq<string> := ["m_stateFlags", "m_continuationObject"]

  /** The type name is one of the library's task types. */
  predicate IsSystemTask(name: string)
  {
    (exists i :: 0 <= i < |TASK_PREFIXES| && StartsWith(name, TASK_PREFIXES[i])) || name == TASK
  }

  /** `HasTaskMembersWeCareAbout`: the type has every field of `TASK_FIELDS`. */
  predicate HasTaskMembers(s: Snapshot, a: Address)
  {
    forall i :: 0 <= i < |TASK_FIELDS| ==> FieldOf(s, a, TASK_FIELDS[i]).Some?
  }

  /** `IsTaskType`: a library task, or with `--userdefined` any type with the task fields. */
  predicate IsTaskType(s: Snapshot, o: Options, a: Address)
  {
    IsSystemTask(TypeOf(s, a).fullName) || (o.userDefined && HasTaskMembers(s, a))
  }

  /** `IsAsyncType`: a state machine box, or with `--tasks` any task. */
  predicate IsAsyncType(s: Snapshot, o: Options, a: Address)
  {
    StartsWith(TypeOf(s, a).fullName, STATE_MACHINE_BOX) || (o.tasks && IsTaskType(s, o, a))
  }

  /** `Matches`: with `--addr` only that address; otherwise async objects whose type name
      contains `--type`, ignoring case, when it is given. */
  predicate Matches(s: Snapshot, o: Options, a: Address)
  {
    if o.address != 0 then a == o.address
    else IsAsyncType(s, o, a) && (o.typeFilter == [] || ContainsIgnoreCase(TypeOf(s, a).fullName, o.typeFilter))
  }

  /** `IsCompleted`: the object's state has a completion bit. */
  predicate Completed(s: Snapshot, a: Address)
  {
    AsyncState.IsCompleted(StateOf(s, a))
  }

  /** An async object big enough to be a state machine or task: it enters `_objectsCache`. */
  predicate IsAsyncObject(s: Snapshot, o: Options, obj: HeapObject)
  {
    obj.size >= 24 && IsAsyncType(s, o, obj.address)
  }

  /** An async object the listing considers: completed ones only with `--completed`. */
  predicate IsCandidate(s: Snapshot, o: Options, obj: HeapObject)
  {
    IsAsyncObject(s, o, obj) && (o.completed || !Completed(s, obj.address))
  }

  /** The `includeInReport` flag an async object gets during enumeration. */
  predicate Included(s: Snapshot, o: Options, a: Address)
  {
    Matches(s, o, a) && (o.completed || !Completed(s, a))
  }

  /** The async objects among `objs`, in enumeration order. */
  function AsyncObjects(s: Snapshot, o: Options, objs: seq<HeapObject>): seq<HeapObject>
  {
    if objs == [] then []
    else
      var n := |objs| - 1;
      AsyncObjects(s, o, objs[..n]) + (if IsAsyncObject(s, o, objs[n]) then [objs[n]] else [])
  }

  /** `foundObjs`: the candidates among `objs`, in enumeration order. */
  function Candidates(s: Snapshot, o: Options, objs: seq<HeapObject>): seq<HeapObject>
  {
    if objs == [] then []
    else
      var n := |objs| - 1;
      Candidates(s, o, objs[..n]) + (if IsCandidate(s, o, objs[n]) then [objs[n]] else [])
  }

  /** Their addresses. */
  function Addresses(objs: seq<HeapObject>): (r: seq<Address>)
    ensures |r| == |objs|
    ensures forall i :: 0 <= i < |objs| ==> r[i] == objs[i].address
  {
    seq(|objs|, i requires 0 <= i < |objs| => objs[i].address)
  }

  /** An object is a candidate exactly when it is enumerated, has at least 24 bytes, is of an
      async type, and is not completed unless `--completed` is given. */
  lemma {:induction false} CandidatesIff(s: Snapshot, o: Options, objs: seq<HeapObject>, obj: HeapObject)
    ensures obj in Candidates(s, o, objs) <==>
      obj in objs && obj.size >= 24 && IsAsyncType(s, o, obj.address)
      && (o.completed || !Completed(s, obj.address))
  {
    if objs != [] {
      var n := |objs| - 1;
      CandidatesIff(s, o, objs[..n], obj);
      assert objs == objs[..n] + [objs[n]];
    }
  }

  /** Candidates keep their enumeration order: they are a subsequence of the heap objects. */
  lemma {:induction false} CandidatesOrdered(s: Snapshot, o: Options, objs: seq<HeapObject>)
    ensures |Candidates(s, o, objs)| <= |AsyncObjects(s, o, objs)| <= |objs|
    ensures o.completed ==> Candidates(s, o, objs) == AsyncObjects(s, o, objs)
  {
    if objs != [] {
      CandidatesOrdered(s, o, objs[..|objs| - 1]);
    }
  }

  /** A candidate's `includeInReport` is plain `Matches`: the completed test is already met. */
  lemma CandidateIncluded(s: Snapshot, o: Options, obj: HeapObject)
    requires IsCandidate(s, o, obj)
    ensures Included(s, o, obj.address) <==> Matches(s, o, obj.address)
  {
  }

  /** With `--addr`, only the object at that address matches, whatever its type. */
  lemma MatchesAddress(s: Snapshot, o: Options, a: Address)
    requires o.address != 0
    ensures Matches(s, o, a) <==> a == o.address
  {
  }

  /** Without `--addr` and `--type`, the async objects are exactly the matching ones; a
      `--type` filter only narrows them. */
  lemma MatchesFilter(s: Snapshot, o: Options, a: Address)
    requires o.address == 0
    ensures o.typeFilter == [] ==> (Matches(s, o, a) <==> IsAsyncType(s, o, a))
    ensures Matches(s, o, a) ==> IsAsyncType(s, o, a)
    ensures o.typeFilter != [] ==>
      (Matches(s, o, a) <==> IsAsyncType(s, o, a) && exists i :: MatchesAtIgnoreCase(TypeOf(s, a).fullName, o.typeFilter, i))
  {
    if o.typeFilter != [] {
      ContainsIgnoreCaseSpec(TypeOf(s, a).fullName, o.typeFilter);
    }
  }

  /** Without `--tasks` only state machine boxes are async; `--userdefined` has no effect
      without `--tasks`. */
  lemma AsyncWithoutTasks(s: Snapshot, o: Options, a: Address)
    requires !o.tasks
    ensures IsAsyncType(s, o, a) <==> StartsWith(TypeOf(s, a).fullName, STATE_MACHINE_BOX)
    ensures IsAsyncType(s, o, a) == IsAsyncType(s, o.(userDefined := !o.userDefined), a)
  {
  }

  /** The library task types are tasks whatever the options; a user type is a task only with
      `--userdefined` and both task fields. */
  lemma TaskTypes(s: Snapshot, o: Options, a: Address)
    ensures IsSystemTask(TypeOf(s, a).fullName) ==> IsTaskType(s, o, a)
    ensures !IsSystemTask(TypeOf(s, a).fullName) ==>
      (IsTaskType(s, o, a) <==> o.userDefined && FieldOf(s, a, "m_stateFlags").Some?
                                && FieldOf(s, a, "m_continuationObject").Some?)
  {
    assert TASK_FIELDS[0] == "m_stateFlags" && TASK_FIELDS[1] == "m_continuationObject";
  }

  /** The async objects are enumerated objects, in a subsequence. */
  lemma {:induction false} AsyncObjectsIn(s: Snapshot, o: Options, objs: seq<HeapObject>)
    ensures forall x :: x in AsyncObjects(s, o, objs) ==> x in objs && IsAsyncObject(s, o, x)
  {
    if objs != [] {
      var n := |objs| - 1;
      AsyncObjectsIn(s, o, objs[..n]);
      assert objs == objs[..n] + [objs[n]];
    }
  }

  /** Every candidate is an async object, and so enters the object cache. */
  lemma {:induction false} CandidatesAsync(s: Snapshot, o: Options, objs: seq<HeapObject>)
    ensures forall x :: x in Candidates(s, o, objs) ==> IsCandidate(s, o, x) && x in AsyncObjects(s, o, objs)
  {
    if objs != [] {
      var n := |objs| - 1;
      CandidatesAsync(s, o, objs[..n]);
    }
  }

  /** Candidates of distinct objects have distinct addresses. */
  lemma {:induction false} CandidatesDistinct(s: Snapshot, o: Options, objs: seq<HeapObject>)
    requires DistinctAddresses(Addresses(objs))
    ensures DistinctAddresses(Addresses(Candidates(s, o, objs)))
  {
    if objs != [] {
      var n := |objs| - 1;
      assert DistinctAddresses(Addresses(objs[..n])) by {
        forall i, j | 0 <= i < j < n ensures objs[..n][i].address != objs[..n][j].address {
          assert Addresses(objs)[i] != Addresses(objs)[j];
        }
      }
      CandidatesDistinct(s, o, objs[..n]);
      CandidatesIff(s, o, objs[..n], objs[n]);
      var prev := Candidates(s, o, objs[..n]);
      var cs := Candidates(s, o, objs);
      forall i, j | 0 <= i < j < |cs| ensures cs[i].address != cs[j].address {
        if j == |prev| {
          CandidatesIff(s, o, objs[..n], cs[i]);
          var k :| 0 <= k < n && objs[k] == cs[i];
          assert Addresses(objs)[k] != Addresses(objs)[n];
        } else {
          assert Addresses(prev)[i] != Addresses(prev)[j];
        }
      }
    }
  }
}
