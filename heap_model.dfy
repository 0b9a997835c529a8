/**
 * The entities the heap commands consume. Objects, their types and the heaps come from the
 * snapshot parser library, whose code is not part of this model: an object is given by the
 * attributes the commands read from it.
 */
module HeapModel {
  import opened Numerics

  type Address = U64

  /** `NativeAOTType`: a type descriptor, identified by its own address. */
  datatype EEType = EEType(address: Address, fullName: string, baseSize: nat, componentSize: nat)

  /** `NativeAOTObject`: address, type, element count (`ArraySize`), the library's `Size`,
      and the outcome of its `Verify()`. */
  datatype HeapObject = HeapObject(address: Address, eeType: EEType, arraySize: nat, size: U64, valid: bool)

  /** The heaps, one after the other, each in enumeration order. */
  function Flatten<T>(heaps: seq<seq<T>>): (r: seq<T>)
    ensures heaps == [] ==> r == []
  {
    if heaps == [] then [] else Flatten(heaps[..|heaps| - 1]) + heaps[|heaps| - 1]
  }

  lemma FlattenStep<T>(heaps: seq<seq<T>>, h: nat)
    requires h < |heaps|
    ensures Flatten(heaps[..h + 1]) == Flatten(heaps[..h]) + heaps[h]
  {
    assert heaps[..h + 1][..h] == heaps[..h];
  }

  /** The objects of the first heaps come first. */
  lemma {:induction false} FlattenPrefix<T>(heaps: seq<seq<T>>, h: nat)
    requires h <= |heaps|
    ensures Flatten(heaps[..h]) <= Flatten(heaps)
    decreases |heaps| - h
  {
    if h < |heaps| {
      FlattenPrefix(heaps, h + 1);
      FlattenStep(heaps, h);
    } else {
      assert heaps[..h] == heaps;
    }
  }

  /** Addresses are object identities: no address is enumerated twice. */
  predicate DistinctAddresses(objs: seq<Address>)
  {
    forall i, j :: 0 <= i < j < |objs| ==> objs[i] != objs[j]
  }
}
