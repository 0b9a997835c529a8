/**
 * The host-side module bookkeeping of the debugger extension
 * (ModuleServiceFromDebuggerServices.cs): the module dictionary built from the native
 * debugger's answers, the module record with its missing-timestamp sentinel, the lazily
 * queried version, and the type and field lookups. Every answer of the debugger is an input.
 */
module ModuleService {
  import opened Wrappers
  import opened Numerics
  import opened Text

  /** `HResult`: `S_OK` is zero, failures are negative. */
  type HResult = int
  const S_OK: HResult := 0

  /** What dbgeng reports as the timestamp of a non-PE module that has none. */
  const InvalidTimeStamp: U32 := 0xFFFF_FFFE

  /** `ModuleFromDebuggerServices`, apart from its lazily computed version. */
  datatype Module = Module(moduleIndex: nat, fileName: string, imageBase: U64, imageSize: U64,
                           indexFileSize: Option<U32>, indexTimeStamp: Option<U32>)

  /** The constructor: both index fields are null when the timestamp is the sentinel. */
  function NewModule(moduleIndex: nat, imageName: string, imageBase: U64, imageSize: U64,
                     indexFileSize: U32, indexTimeStamp: U32): (m: Module)
    ensures m.indexFileSize.None? <==> indexTimeStamp == InvalidTimeStamp
    ensures m.indexTimeStamp.None? <==> indexTimeStamp == InvalidTimeStamp
    ensures m.indexFileSize.Some? ==> m.indexFileSize.value == indexFileSize
    ensures m.indexTimeStamp.Some? ==> m.indexTimeStamp.value == indexTimeStamp
    ensures m.moduleIndex == moduleIndex && m.fileName == imageName
    ensures m.imageBase == imageBase && m.imageSize == imageSize
  {
    var invalid := indexTimeStamp == InvalidTimeStamp;
    Module(moduleIndex, imageName, imageBase, imageSize,
           if invalid then None else Some(indexFileSize),
           if invalid then None else Some(indexTimeStamp))
  }

  /** `GetModuleInfo`'s successful answer. */
  datatype ModuleInfo = ModuleInfo(imageBase: U64, imageSize: U64, timestamp: U32, checksum: U32)

  /** What the debugger answers for one loaded module: its info (`None` when the query
      fails) and its name. */
  datatype HostModule = HostModule(info: Option<ModuleInfo>, name: string)

  const CoreClrUpper := "CoreCLR.dll"
  const CoreClrLower := "coreclr.dll"

  /** The name fix-up: a name ending in `CoreCLR.dll` has every `CoreCLR.dll` in it
      replaced (ordinal, case-sensitive) by `coreclr.dll`. */
  function FixImageName(imageName: string): string
  {
    if EndsWith(imageName, CoreClrUpper) then ReplaceAll(imageName, CoreClrUpper, CoreClrLower)
    else imageName
  }

  lemma CoreClrBorderFree()
    ensures BorderFree(CoreClrUpper)
  {
    var p := CoreClrUpper;
    forall k | 0 < k < |p| ensures p[..k] != p[|p| - k..] {
      if k == 7 {
        assert p[..k][1] == 'o' && p[|p| - k..][1] == 'L';
      } else {
        assert p[..k][0] == 'C' && p[|p| - k..][0] != 'C';
      }
    }
  }

  /** A name ending in `CoreCLR.dll` ends in `coreclr.dll` afterwards and keeps its length;
      any other name is left alone. */
  lemma FixImageNameSpec(imageName: string)
    ensures EndsWith(imageName, CoreClrUpper) ==>
      EndsWith(FixImageName(imageName), CoreClrLower) && |FixImageName(imageName)| == |imageName|
    ensures !EndsWith(imageName, CoreClrUpper) ==> FixImageName(imageName) == imageName
  {
    if EndsWith(imageName, CoreClrUpper) {
      CoreClrBorderFree();
      ReplaceAllSuffix(imageName, CoreClrUpper, CoreClrLower);
      ReplaceAllLength(imageName, CoreClrUpper, CoreClrLower);
    }
  }

  /** The module built for the loaded module at `index`, whose info query succeeded; the
      index file size is the image size cast to `uint`. */
  function BuildModule(index: nat, m: HostModule): Module
    requires m.info.Some?
  {
    var info := m.info.value;
    NewModule(index, FixImageName(m.name), info.imageBase, info.imageSize,
              info.imageSize % TWO_32, info.timestamp)
  }

  /** The dictionary after the first `|hosts|` loaded modules: a module whose image base is
      already a key is dropped. */
  function ModulesFrom(hosts: seq<HostModule>): map<U64, Module>
  {
    if hosts == [] then map[]
    else
      var n := |hosts| - 1;
      var before := ModulesFrom(hosts[..n]);
      if hosts[n].info.None? || hosts[n].info.value.imageBase in before then before
      else before[hosts[n].info.value.imageBase := BuildModule(n, hosts[n])]
  }

  /** `GetModulesInner`. `loaded` is the answer to `GetNumberModules` (`None` when it fails);
      `hosts[i]` answers the queries about module `i`. */
  method GetModulesInner(loaded: Option<seq<HostModule>>) returns (modules: map<U64, Module>)
    ensures loaded.None? ==> modules == map[]
    ensures loaded.Some? ==> modules == ModulesFrom(loaded.value)
  {
    modules := map[];
    if loaded.Some? {
      var hosts := loaded.value;
      var moduleIndex := 0;
      while moduleIndex < |hosts|
        invariant 0 <= moduleIndex <= |hosts|
        invariant modules == ModulesFrom(hosts[..moduleIndex])
      {
        assert hosts[..moduleIndex + 1][..moduleIndex] == hosts[..moduleIndex];
        var host := hosts[moduleIndex];
        if host.info.Some? {
          var info := host.info.value;
          var imageName := host.name;
          if EndsWith(imageName, CoreClrUpper) {
            imageName := ReplaceAll(imageName, CoreClrUpper, CoreClrLower);
          }
          var built := NewModule(moduleIndex, imageName, info.imageBase, info.imageSize,
                                  info.imageSize % TWO_32, info.timestamp);
          if info.imageBase !in modules {
            modules := modules[info.imageBase := built];
          }
        }
        moduleIndex := moduleIndex + 1;
      }
      assert hosts[..moduleIndex] == hosts;
    }
  }

  /** Modules whose info query succeeded, among the first `|hosts|`, with image base `b`. */
  predicate HasBase(hosts: seq<HostModule>, i: int, b: U64)
  {
    0 <= i < |hosts| && hosts[i].info.Some? && hosts[i].info.value.imageBase == b
  }

  /** Every key is its module's image base, and the key set is exactly the image bases of
      the modules whose info query succeeded. */
  lemma {:induction false} ModulesFromKeys(hosts: seq<HostModule>, b: U64)
    ensures b in ModulesFrom(hosts) ==> ModulesFrom(hosts)[b].imageBase == b
    ensures b in ModulesFrom(hosts) <==> exists i :: HasBase(hosts, i, b)
  {
    if hosts != [] {
      var n := |hosts| - 1;
      ModulesFromKeys(hosts[..n], b);
      if hosts[n].info.Some? && hosts[n].info.value.imageBase == b {
        assert BuildModule(n, hosts[n]).imageBase == b && HasBase(hosts, n, b);
      }
      if exists i :: HasBase(hosts[..n], i, b) {
        var i :| HasBase(hosts[..n], i, b);
        assert HasBase(hosts, i, b);
      }
      if exists i :: HasBase(hosts, i, b) {
        var i :| HasBase(hosts, i, b);
        if i < n {
          assert HasBase(hosts[..n], i, b);
        }
      }
    }
  }

  /** The first module with a given image base is the one kept. */
  lemma {:induction false} ModulesFromFirstWins(hosts: seq<HostModule>, i: nat)
    requires i < |hosts| && hosts[i].info.Some?
    requires forall j :: 0 <= j < i ==> !HasBase(hosts, j, hosts[i].info.value.imageBase)
    ensures hosts[i].info.value.imageBase in ModulesFrom(hosts)
    ensures ModulesFrom(hosts)[hosts[i].info.value.imageBase] == BuildModule(i, hosts[i])
  {
    var b := hosts[i].info.value.imageBase;
    var n := |hosts| - 1;
    if i < n {
      forall j | 0 <= j < i ensures !HasBase(hosts[..n], j, b) {
        assert !HasBase(hosts, j, b);
      }
      ModulesFromFirstWins(hosts[..n], i);
      ModulesFromKeys(hosts[..n], b);
    } else {
      ModulesFromKeys(hosts[..n], b);
      if b in ModulesFrom(hosts[..n]) {
        var j :| HasBase(hosts[..n], j, b);
        assert HasBase(hosts, j, b);
      }
    }
  }

  /** `VersionInfo`. */
  datatype VersionInfo = VersionInfo(major: Int32, minor: Int32, revision: Int32, patch: Int32)

  /** The split of `VS_FIXEDFILEINFO`'s two version words: each word is cast to `int` before
      the arithmetic shift, so the high half is signed and the low half is not. */
  function DecodeVersion(ms: U32, ls: U32): VersionInfo
  {
    VersionInfo(AsInt32(ms) / 0x1_0000, AsInt32(ms) % 0x1_0000, AsInt32(ls) / 0x1_0000, AsInt32(ls) % 0x1_0000)
  }

  /** Both halves together give back the word: no bit is lost. */
  lemma DecodeVersionWord(word: U32)
    ensures var v := DecodeVersion(word, word);
      && 0 <= v.minor < 0x1_0000 && v.minor == word % 0x1_0000
      && (v.major * 0x1_0000 + v.minor) % TWO_32 == word
      && v.revision == v.major && v.patch == v.minor
  {
  }

  /** The high half is the unsigned one while the top bit is clear, and negative once it is
      set (a major version of 0x8000 or more comes out below zero). */
  lemma DecodeVersionHigh(word: U32)
    ensures word < 0x8000_0000 ==> DecodeVersion(word, 0).major == word / 0x1_0000
    ensures word >= 0x8000_0000 ==> DecodeVersion(word, 0).major == word / 0x1_0000 - 0x1_0000 < 0
  {
  }

  /** `GetModuleVersionInformation`'s answer. */
  datatype VersionQuery = VersionQuery(hr: HResult, fileVersionMS: U32, fileVersionLS: U32)

  /**
   * The lazily computed `Version` and `VersionString` of one module. Each is computed by the
   * first read (`InitializeValue` sets its flag and answers whether it was clear) and cached.
   */
  class ModuleVersions {
    var versionInitialized: bool
    var version: Option<VersionInfo>
    var productVersionInitialized: bool
    var versionString: Option<string>
    /** The number of times the debugger has been asked, for each of the two. */
    ghost var versionQueries: nat
    ghost var versionStringQueries: nat

    /** The debugger is asked at most once for each, and only by the read that sets the flag. */
    ghost predicate Valid()
      reads this
    {
      && versionQueries == (if versionInitialized then 1 else 0)
      && versionStringQueries == (if productVersionInitialized then 1 else 0)
    }

    constructor ()
      ensures Valid()
      ensures !versionInitialized && !productVersionInitialized
      ensures version.None? && versionString.None?
      ensures versionQueries == 0 && versionStringQueries == 0
    {
      versionInitialized, productVersionInitialized := false, false;
      version, versionString := None, None;
      versionQueries, versionStringQueries := 0, 0;
    }

    /** `Version`: `query` is the debugger's answer, `fromVersionString` what the version-string
        fallback of the base class would produce. */
    method Version(query: VersionQuery, isWindows: bool, fromVersionString: Option<VersionInfo>)
      returns (v: Option<VersionInfo>)
      requires Valid()
      modifies this`versionInitialized, this`version, this`versionQueries
      ensures Valid()
      ensures versionInitialized && v == version
      ensures versionQueries == old(versionQueries) + (if old(versionInitialized) then 0 else 1)
      ensures old(versionInitialized) ==> version == old(version)
      ensures !old(versionInitialized) ==>
        version == (if query.hr == S_OK then Some(DecodeVersion(query.fileVersionMS, query.fileVersionLS))
                    else if !isWindows then fromVersionString
                    else old(version))
    {
      if !versionInitialized {
        versionInitialized := true;
        versionQueries := versionQueries + 1;
        if query.hr == S_OK {
          version := Some(DecodeVersion(query.fileVersionMS, query.fileVersionLS));
        } else if !isWindows {
          version := fromVersionString;
        }
      }
      v := version;
    }

    /** `VersionString`: the debugger's answer is written to the cache even when the query
        fails; off Windows, a non-PE image then falls back to reading the version from memory. */
    method VersionString(hr: HResult, answer: Option<string>, isWindows: bool, isPEImage: bool,
                         fromMemory: Option<string>) returns (s: Option<string>)
      requires Valid()
      modifies this`productVersionInitialized, this`versionString, this`versionStringQueries
      ensures Valid()
      ensures productVersionInitialized && s == versionString
      ensures versionStringQueries == old(versionStringQueries) + (if old(productVersionInitialized) then 0 else 1)
      ensures old(productVersionInitialized) ==> versionString == old(versionString)
      ensures !old(productVersionInitialized) ==>
        versionString == (if hr != S_OK && !isWindows && !isPEImage then fromMemory else answer)
    {
      if !productVersionInitialized {
        productVersionInitialized := true;
        versionStringQueries := versionStringQueries + 1;
        versionString := answer;
        if hr != S_OK {
          if !isWindows && !isPEImage {
            versionString := fromMemory;
          }
        }
      }
      s := versionString;
    }
  }

  /** `TypeFromDebuggerServices`. */
  datatype TypeRef = TypeRef(moduleIndex: nat, typeId: U64, typeName: string)

  /** `FieldFromDebuggerServices`. */
  datatype Field = Field(fieldType: TypeRef, name: string, offset: U32)

  /** `TryGetType`: `hr` and `typeId` are the answer to `GetTypeId`. */
  function TryGetType(m: Module, typeName: string, hr: HResult, typeId: U64): (r: Option<TypeRef>)
    ensures r.Some? <==> hr == S_OK
    ensures r.Some? ==> r.value.typeName == typeName && r.value.typeId == typeId && r.value.moduleIndex == m.moduleIndex
  {
    if hr != S_OK then None else Some(TypeRef(m.moduleIndex, typeId, typeName))
  }

  /** `TryGetField`: `hr` and `offset` are the answer to `GetFieldOffset`. */
  function TryGetField(t: TypeRef, fieldName: string, hr: HResult, offset: U32): (r: Option<Field>)
    ensures r.Some? <==> hr == S_OK
    ensures r.Some? ==> r.value.name == fieldName && r.value.offset == offset && r.value.fieldType == t
  {
    if hr != S_OK then None else Some(Field(t, fieldName, offset))
  }
}
