/**
 * Per-type statistics (HeapStats.cs): a dictionary from type address to a record of
 * (type, count, total bytes), filled by `Add` and listed by `Print`, optionally sorted
 * by total size.
 */
module HeapStatistics {
  import opened Numerics
  import opened HeapModel
  import opened StableSort

  /** One record. `count` is a `uint` and `totalSizeInBytes` a `ulong`; both wrap. */
  datatype TypeStats = TypeStats(eeType: EEType, count: U32, totalSizeInBytes: U64)

  /** The dictionary: the records by type address, and the order in which it enumerates
      them (the order the keys were first added; nothing is ever removed). */
  datatype Table = Table(stats: map<Address, TypeStats>, order: seq<Address>)

  ghost predicate WellFormed(t: Table)
  {
    && (forall i, j :: 0 <= i < j < |t.order| ==> t.order[i] != t.order[j])
    && (forall a :: a in t.order <==> a in t.stats)
    && (forall a :: a in t.stats ==> t.stats[a].eeType.address == a)
  }

  const EmptyTable: Table := Table(map[], [])

  /** `GetOrCreateTypeStats` followed by `count++` and `totalSizeInBytes += size`. */
  function Record(t: Table, eeType: EEType, size: U64): Table
  {
    var a := eeType.address;
    var old_ := if a in t.stats then t.stats[a] else TypeStats(eeType, 0, 0);
    var new_ := TypeStats(old_.eeType, AddU32(old_.count, 1), AddU64(old_.totalSizeInBytes, size));
    Table(t.stats[a := new_], if a in t.stats then t.order else t.order + [a])
  }

  /** The table after adding each (type, size) pair of `history`, in order. */
  function Aggregate(history: seq<(EEType, U64)>): Table
  {
    if history == [] then EmptyTable
    else
      var n := |history| - 1;
      Record(Aggregate(history[..n]), history[n].0, history[n].1)
  }

  /** Reference definitions: how many additions named type address `a`, their bytes, and the
      type given by the first of them. */
  function CountOf(history: seq<(EEType, U64)>, a: Address): nat
  {
    if history == [] then 0
    else CountOf(history[..|history| - 1], a) + (if history[|history| - 1].0.address == a then 1 else 0)
  }

  function BytesOf(history: seq<(EEType, U64)>, a: Address): nat
  {
    if history == [] then 0
    else BytesOf(history[..|history| - 1], a) + (if history[|history| - 1].0.address == a then history[|history| - 1].1 else 0)
  }

  lemma CountOfAppend(history: seq<(EEType, U64)>, e: (EEType, U64), a: Address)
    ensures CountOf(history + [e], a) == CountOf(history, a) + (if e.0.address == a then 1 else 0)
    ensures BytesOf(history + [e], a) == BytesOf(history, a) + (if e.0.address == a then e.1 else 0)
  {
    assert (history + [e])[..|history|] == history;
  }

  function FirstType(history: seq<(EEType, U64)>, a: Address): EEType
    requires CountOf(history, a) > 0
  {
    var n := |history| - 1;
    if CountOf(history[..n], a) > 0 then FirstType(history[..n], a) else history[n].0
  }

  lemma {:induction false} RecordWellFormed(t: Table, eeType: EEType, size: U64)
    requires WellFormed(t)
    ensures WellFormed(Record(t, eeType, size))
  {
    var t' := Record(t, eeType, size);
    if eeType.address !in t.stats {
      forall i, j | 0 <= i < j < |t'.order| ensures t'.order[i] != t'.order[j] {
        if j == |t.order| { assert t.order[i] in t.stats; }
      }
    }
  }

  lemma {:induction false} AggregateWellFormed(history: seq<(EEType, U64)>)
    ensures WellFormed(Aggregate(history))
  {
    if history != [] {
      var n := |history| - 1;
      AggregateWellFormed(history[..n]);
      RecordWellFormed(Aggregate(history[..n]), history[n].0, history[n].1);
    }
  }

  /** Exactly the added type addresses have a record; no record without a byte. */
  lemma {:induction false} AggregateKeys(history: seq<(EEType, U64)>, a: Address)
    ensures a in Aggregate(history).stats <==> CountOf(history, a) > 0
    ensures CountOf(history, a) == 0 ==> BytesOf(history, a) == 0
  {
    if history != [] {
      var n := |history| - 1;
      AggregateKeys(history[..n], a);
    }
  }

  /**
   * The record of an added type address was created by its first addition and keeps that
   * addition's type; its count is the number of additions of that address and its total
   * their bytes (both modulo the width of their fields).
   */
  lemma {:induction false} AggregateRecord(history: seq<(EEType, U64)>, a: Address)
    requires CountOf(history, a) > 0
    ensures a in Aggregate(history).stats
    ensures var r := Aggregate(history).stats[a];
      && r.count == CountOf(history, a) % TWO_32
      && r.totalSizeInBytes == BytesOf(history, a) % TWO_64
      && r.eeType == FirstType(history, a)
  {
    var n := |history| - 1;
    var h, e := history[..n], history[n];
    AggregateKeys(history, a);
    AggregateKeys(h, a);
    if CountOf(h, a) > 0 {
      AggregateRecord(h, a);
      if e.0.address == a {
        ModAddLeft(CountOf(h, a), 1, TWO_32);
        ModAddLeft(BytesOf(h, a), e.1, TWO_64);
      }
    }
  }

  /** The records in the dictionary's enumeration order. */
  function Values(t: Table): (r: seq<TypeStats>)
    requires forall a :: a in t.order ==> a in t.stats
    ensures |r| == |t.order|
    ensures forall i :: 0 <= i < |r| ==> r[i] == t.stats[t.order[i]]
    decreases |t.order|
  {
    if t.order == [] then []
    else
      var n := |t.order| - 1;
      Values(Table(t.stats, t.order[..n])) + [t.stats[t.order[n]]]
  }

  function SumCounts(s: seq<TypeStats>): nat
  {
    if s == [] then 0 else SumCounts(s[..|s| - 1]) + s[|s| - 1].count
  }

  lemma {:induction false} SumCountsAppend(s: seq<TypeStats>, x: TypeStats)
    ensures SumCounts(s + [x]) == SumCounts(s) + x.count
  {
    assert (s + [x])[..|s|] == s;
  }

  lemma SumCountsPrefix(s: seq<TypeStats>, i: nat)
    requires i < |s|
    ensures SumCounts(s[..i + 1]) == SumCounts(s[..i]) + s[i].count
  {
    assert s[..i + 1][..i] == s[..i];
  }

  lemma {:induction false} SumCountsPrepend(x: TypeStats, s: seq<TypeStats>)
    ensures SumCounts([x] + s) == x.count + SumCounts(s)
    decreases |s|
  {
    if s != [] {
      var n := |s| - 1;
      assert ([x] + s)[..|s|] == [x] + s[..n];
      SumCountsPrepend(x, s[..n]);
    }
  }

  lemma {:induction false} SumCountsUpdate(s: seq<TypeStats>, p: nat, v: TypeStats)
    requires p < |s|
    ensures SumCounts(s[p := v]) == SumCounts(s) - s[p].count + v.count
  {
    var n := |s| - 1;
    if p < n {
      assert s[p := v][..n] == s[..n][p := v];
      SumCountsUpdate(s[..n], p, v);
    } else {
      assert s[p := v][..n] == s[..n];
    }
  }

  lemma {:induction false} SumCountsInsert(x: TypeStats, s: seq<TypeStats>, key: TypeStats -> int)
    ensures SumCounts(Insert(x, s, key)) == x.count + SumCounts(s)
  {
    if s == [] || key(x) <= key(s[0]) {
      SumCountsPrepend(x, s);
    } else {
      SumCountsInsert(x, s[1..], key);
      SumCountsPrepend(s[0], Insert(x, s[1..], key));
      SumCountsPrepend(s[0], s[1..]);
      assert [s[0]] + s[1..] == s;
    }
  }

  /** Sorting for display does not change the total. */
  lemma {:induction false} SumCountsOrderBy(s: seq<TypeStats>, key: TypeStats -> int)
    ensures SumCounts(OrderBy(s, key)) == SumCounts(s)
  {
    if s != [] {
      SumCountsOrderBy(s[1..], key);
      SumCountsInsert(s[0], OrderBy(s[1..], key), key);
      SumCountsPrepend(s[0], s[1..]);
      assert [s[0]] + s[1..] == s;
    }
  }

  lemma ValuesUpdateExisting(t: Table, p: nat, v: TypeStats)
    requires WellFormed(t) && p < |t.order|
    ensures forall a :: a in t.order ==> a in t.stats[t.order[p] := v]
    ensures Values(Table(t.stats[t.order[p] := v], t.order)) == Values(t)[p := v]
  {
    var a := t.order[p];
    var t' := Table(t.stats[a := v], t.order);
    var vs, vs' := Values(t), Values(t');
    forall i | 0 <= i < |vs'| ensures vs'[i] == vs[p := v][i] {
      if i != p { assert t.order[i] != a; }
    }
  }

  lemma ValuesUpdateNew(t: Table, a: Address, v: TypeStats)
    requires WellFormed(t) && a !in t.stats
    ensures Values(Table(t.stats[a := v], t.order + [a])) == Values(t) + [v]
  {
    var t' := Table(t.stats[a := v], t.order + [a]);
    var vs, vs' := Values(t), Values(t');
    forall i | 0 <= i < |vs| ensures vs'[i] == vs[i] {
      assert t.order[i] in t.stats;
    }
  }

  /** One addition raises the sum of the counts by one, or wraps it back by 2^32 - 1. */
  lemma ValuesRecord(t: Table, eeType: EEType, size: U64)
    requires WellFormed(t)
    ensures WellFormed(Record(t, eeType, size))
    ensures var after, before := SumCounts(Values(Record(t, eeType, size))), SumCounts(Values(t));
            after == before + 1 || after + TWO_32 == before + 1
  {
    var a := eeType.address;
    var t' := Record(t, eeType, size);
    RecordWellFormed(t, eeType, size);
    var v := t'.stats[a];
    var S := SumCounts(Values(t));
    var X := SumCounts(Values(t'));
    if a in t.stats {
      var c := t.stats[a].count;
      assert v.count == AddU32(c, 1);
      assert X == S - c + v.count by {
        var p :| 0 <= p < |t.order| && t.order[p] == a;
        ValuesUpdateExisting(t, p, v);
        SumCountsUpdate(Values(t), p, v);
      }
    } else {
      assert v.count == 1;
      assert X == S + 1 by {
        ValuesUpdateNew(t, a, v);
        SumCountsAppend(Values(t), v);
      }
    }
  }

  /** The record counts add up to the number of additions (modulo 2^32). */
  lemma {:induction false} AggregateTotal(history: seq<(EEType, U64)>)
    ensures WellFormed(Aggregate(history))
    ensures SumCounts(Values(Aggregate(history))) % TWO_32 == |history| % TWO_32
  {
    if history != [] {
      var n := |history| - 1;
      var t := Aggregate(history[..n]);
      AggregateTotal(history[..n]);
      ValuesRecord(t, history[n].0, history[n].1);
      ModStep(SumCounts(Values(t)), SumCounts(Values(Aggregate(history))), n, TWO_32);
    }
  }

  function TotalSizeKey(s: TypeStats): int
  {
    s.totalSizeInBytes
  }

  /** The "Total N objects" loop: the counts summed in a `uint`. */
  method CountTotal(listing: seq<TypeStats>) returns (total: U32)
    ensures total == SumCounts(listing) % TWO_32
  {
    total := 0;
    var i := 0;
    ghost var sum := 0;
    while i < |listing|
      invariant 0 <= i <= |listing|
      invariant sum == SumCounts(listing[..i]) && total == sum % TWO_32
    {
      SumCountsPrefix(listing, i);
      AddU32Tracks(total, sum, listing[i].count);
      total := AddU32(total, listing[i].count);
      sum := sum + listing[i].count;
      i := i + 1;
    }
    assert listing[..i] == listing;
  }

  class HeapStats {
    var typeStats: map<Address, TypeStats>
    var order: seq<Address>
    var shouldSort: bool
    /** Every `Add` so far, in call order. */
    ghost var history: seq<(EEType, U64)>

    ghost predicate Valid()
      reads this
    {
      Table(typeStats, order) == Aggregate(history)
    }

    constructor ()
      ensures Valid() && history == [] && !shouldSort
      ensures typeStats == map[] && order == []
    {
      typeStats, order, shouldSort := map[], [], false;
      history := [];
    }

    method GetOrCreateTypeStats(eeType: EEType) returns (stats: TypeStats)
      requires Valid()
      modifies this
      ensures shouldSort == old(shouldSort) && history == old(history)
      ensures eeType.address in old(typeStats) ==>
        typeStats == old(typeStats) && order == old(order) && stats == typeStats[eeType.address]
      ensures eeType.address !in old(typeStats) ==>
        && stats == TypeStats(eeType, 0, 0)
        && typeStats == old(typeStats)[eeType.address := stats]
        && order == old(order) + [eeType.address]
    {
      var a := eeType.address;
      if a !in typeStats {
        typeStats := typeStats[a := TypeStats(eeType, 0, 0)];
        order := order + [a];
      }
      stats := typeStats[a];
    }

    /** Counts one more object of `eeType`, of `sizeInBytes` bytes. */
    method Add(eeType: EEType, sizeInBytes: U64)
      requires Valid()
      modifies this
      ensures Valid() && history == old(history) + [(eeType, sizeInBytes)]
      ensures shouldSort == old(shouldSort)
      ensures Table(typeStats, order) == Record(old(Table(typeStats, order)), eeType, sizeInBytes)
    {
      var stats := GetOrCreateTypeStats(eeType);
      stats := stats.(count := AddU32(stats.count, 1));
      stats := stats.(totalSizeInBytes := AddU64(stats.totalSizeInBytes, sizeInBytes));
      typeStats := typeStats[eeType.address := stats];
      history := history + [(eeType, sizeInBytes)];
      assert history[..|history| - 1] == old(history);
    }

    /** Only asks `Print` to sort; no record changes. */
    method Sort()
      requires Valid()
      modifies this`shouldSort
      ensures Valid() && shouldSort
    {
      shouldSort := true;
    }

    /**
     * The records in the order the table lists them, and the number on the "Total N objects"
     * line, accumulated in a `uint`.
     */
    method Print() returns (listing: seq<TypeStats>, total: U32)
      requires Valid()
      ensures WellFormed(Table(typeStats, order))
      ensures listing == if shouldSort then OrderBy(Values(Table(typeStats, order)), TotalSizeKey)
                         else Values(Table(typeStats, order))
      ensures multiset(listing) == multiset(Values(Table(typeStats, order)))
      ensures shouldSort ==> SortedBy(listing, TotalSizeKey)
      ensures total == SumCounts(listing) % TWO_32 == |history| % TWO_32
    {
      AggregateTotal(history);
      var values := Values(Table(typeStats, order));
      listing := values;
      if shouldSort {
        listing := OrderBy(values, TotalSizeKey);
        OrderBySortedPermutation(values, TotalSizeKey);
        SumCountsOrderBy(values, TotalSizeKey);
      }
      total := CountTotal(listing);
    }
  }
}
