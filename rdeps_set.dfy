/**
 * Sets of reverse dependencies and the application of Add/Remove deltas to them. A set is kept
 * either as a sorted int array (`Unique`) or as a persistent hash set (`Persistent`); which one
 * is chosen depends on the size of the result.
 */
module RdepsSets {
  import opened Wrappers
  import opened MultitenantTypes

  /** If a new set of rdeps is smaller than this, it is stored as `Unique`. */
  const ThresholdForUniqueVsPersistent: int := 10

  datatype RdepsSet =
    | Unique(rdeps: BuildTargetSet)
    | Persistent(members: set<BuildTargetId>)
  {
    /** `RdepsSet.size`: the array length, or the hash-set size. */
    function Size(): int {
      match this
      case Unique(ids) => |ids|
      case Persistent(m) => |m|
    }

    /** The targets the set holds. */
    function Elements(): set<BuildTargetId> {
      match this
      case Unique(ids) => SetOf(ids)
      case Persistent(m) => m
    }

    /** A `Unique` set's array must be a `BuildTargetSet`. */
    predicate Valid() {
      Unique? ==> IsBuildTargetSet(rdeps)
    }
  }

  /** One change to a set of rdeps. Deltas compare by `buildTargetId` alone. */
  datatype BuildTargetSetDelta =
    | Add(buildTargetId: BuildTargetId)
    | Remove(buildTargetId: BuildTargetId)

  /** The exceptions the derivation can raise. */
  datatype RdepsError =
    | RemoveForNonExistentSet                   // `check` in aggregateDeltaDeriveInfos
    | RemoveOfAbsent(id: BuildTargetId)         // a Remove whose target is not in the old set
    | AddOfPresent(id: BuildTargetId)           // an Add whose target is already in the old set
    | IndexOutOfBounds(index: int)              // a write past the end of the new array
    | SizeMismatch(filled: int, expected: int) // fewer slots filled than the expected size
    | NegativeArraySize(size: int)              // `IntArray(n)` with `n < 0`

  // ---------------------------------------------------------------------------------------------
  // Sorting the deltas. `MutableList.sort()` is a stable sort; deltas are compared by id only.

  predicate SortedById(ds: seq<BuildTargetSetDelta>) {
    forall i, j | 0 <= i < j < |ds| :: ds[i].buildTargetId <= ds[j].buildTargetId
  }

  /** Strictly ascending ids: sorted, and no two deltas for the same target. */
  predicate StrictlySortedById(ds: seq<BuildTargetSetDelta>) {
    forall i, j | 0 <= i < j < |ds| :: ds[i].buildTargetId < ds[j].buildTargetId
  }

  predicate DistinctIds(ds: seq<BuildTargetSetDelta>) {
    forall i, j | 0 <= i < j < |ds| :: ds[i].buildTargetId != ds[j].buildTargetId
  }

  function Ids(ds: seq<BuildTargetSetDelta>): set<BuildTargetId> {
    set d | d in ds :: d.buildTargetId
  }

  function AddIds(ds: seq<BuildTargetSetDelta>): set<BuildTargetId> {
    set d | d in ds && d.Add? :: d.buildTargetId
  }

  function RemoveIds(ds: seq<BuildTargetSetDelta>): set<BuildTargetId> {
    set d | d in ds && d.Remove? :: d.buildTargetId
  }

  /** The deltas for target `k`, in the order they appear in `ds`. */
  function OfId(ds: seq<BuildTargetSetDelta>, k: BuildTargetId): seq<BuildTargetSetDelta> {
    if ds == [] then []
    else (if ds[0].buildTargetId == k then [ds[0]] else []) + OfId(ds[1..], k)
  }

  /** Puts `d` in front of the first delta of `s` whose id is not smaller. */
  function Insert(d: BuildTargetSetDelta, s: seq<BuildTargetSetDelta>): seq<BuildTargetSetDelta> {
    if s == [] || d.buildTargetId <= s[0].buildTargetId then [d] + s
    else [s[0]] + Insert(d, s[1..])
  }

  lemma {:induction false} InsertIds(d: BuildTargetSetDelta, s: seq<BuildTargetSetDelta>)
    ensures Ids(Insert(d, s)) == {d.buildTargetId} + Ids(s)
    ensures multiset(Insert(d, s)) == multiset{d} + multiset(s)
  {
    if s == [] || d.buildTargetId <= s[0].buildTargetId {
      assert Ids([d] + s) == {d.buildTargetId} + Ids(s) by {
        assert forall x | x in [d] + s :: x == d || x in s;
      }
    } else {
      InsertIds(d, s[1..]);
      assert s == [s[0]] + s[1..];
      var t := Insert(d, s[1..]);
      IdsCons(s[0], t);
      IdsCons(s[0], s[1..]);
    }
  }

  lemma IdsCons(x: BuildTargetSetDelta, t: seq<BuildTargetSetDelta>)
    ensures Ids([x] + t) == {x.buildTargetId} + Ids(t)
  {
    assert forall y | y in [x] + t :: y == x || y in t;
  }

  lemma SortedCons(x: BuildTargetSetDelta, t: seq<BuildTargetSetDelta>)
    requires SortedById(t)
    requires forall y | y in t :: x.buildTargetId <= y.buildTargetId
    ensures SortedById([x] + t)
  {
    var u := [x] + t;
    forall i, j | 0 <= i < j < |u| ensures u[i].buildTargetId <= u[j].buildTargetId {
      assert u[j] == t[j - 1];
      if i > 0 {
        assert u[i] == t[i - 1];
      } else {
        assert t[j - 1] in t;
      }
    }
  }

  lemma {:induction false} InsertSorted(d: BuildTargetSetDelta, s: seq<BuildTargetSetDelta>)
    requires SortedById(s)
    ensures SortedById(Insert(d, s))
  {
    if s == [] || d.buildTargetId <= s[0].buildTargetId {
      forall y | y in s ensures d.buildTargetId <= y.buildTargetId {
        var m :| 0 <= m < |s| && s[m] == y;
        assert s[0].buildTargetId <= s[m].buildTargetId;
      }
      SortedCons(d, s);
    } else {
      var rest := s[1..];
      assert SortedById(rest) by {
        forall i, j | 0 <= i < j < |rest| ensures rest[i].buildTargetId <= rest[j].buildTargetId {
          assert rest[i] == s[i + 1] && rest[j] == s[j + 1];
        }
      }
      InsertSorted(d, rest);
      HeadStaysFirst(d, s);
      SortedCons(s[0], Insert(d, rest));
    }
  }

  lemma HeadStaysFirst(d: BuildTargetSetDelta, s: seq<BuildTargetSetDelta>)
    requires SortedById(s) && s != [] && s[0].buildTargetId < d.buildTargetId
    ensures forall y | y in Insert(d, s[1..]) :: s[0].buildTargetId <= y.buildTargetId
  {
    var rest := s[1..];
    InsertIds(d, rest);
    forall y | y in Insert(d, rest) ensures s[0].buildTargetId <= y.buildTargetId {
      assert y in multiset(Insert(d, rest));
      if y != d {
        assert y in multiset(rest);
        var m :| 0 <= m < |rest| && rest[m] == y;
        assert s[m + 1] == y;
      }
    }
  }

  /** `deltas.sort()`: a stable insertion sort on `buildTargetId`. */
  function SortDeltas(ds: seq<BuildTargetSetDelta>): (r: seq<BuildTargetSetDelta>)
    ensures SortedById(r)
    ensures multiset(r) == multiset(ds)
  {
    if ds == [] then []
    else
      var rest := SortDeltas(ds[1..]);
      InsertSorted(ds[0], rest);
      InsertIds(ds[0], rest);
      assert ds == [ds[0]] + ds[1..];
      Insert(ds[0], rest)
  }

  lemma {:induction false} OfIdInsert(d: BuildTargetSetDelta, s: seq<BuildTargetSetDelta>, k: BuildTargetId)
    ensures OfId(Insert(d, s), k) == (if d.buildTargetId == k then [d] else []) + OfId(s, k)
  {
    if s == [] || d.buildTargetId <= s[0].buildTargetId {
      assert ([d] + s)[1..] == s;
    } else {
      var t := Insert(d, s[1..]);
      OfIdInsert(d, s[1..], k);
      assert ([s[0]] + t)[1..] == t;
      assert OfId(Insert(d, s), k) == (if s[0].buildTargetId == k then [s[0]] else []) + OfId(t, k);
      assert OfId(s, k) == (if s[0].buildTargetId == k then [s[0]] else []) + OfId(s[1..], k);
      if s[0].buildTargetId == k {
        assert d.buildTargetId != k;
      }
    }
  }

  /**
   * The sort is stable: for every target, its deltas keep their input order. So whether an Add
   * comes before a Remove of the same target never depends on the kind of delta.
   */
  lemma {:induction false} SortIsStable(ds: seq<BuildTargetSetDelta>, k: BuildTargetId)
    ensures OfId(SortDeltas(ds), k) == OfId(ds, k)
  {
    if ds != [] {
      SortIsStable(ds[1..], k);
      OfIdInsert(ds[0], SortDeltas(ds[1..]), k);
    }
  }

  lemma MultisetSameIds(a: seq<BuildTargetSetDelta>, b: seq<BuildTargetSetDelta>)
    requires multiset(a) == multiset(b)
    ensures Ids(a) == Ids(b) && AddIds(a) == AddIds(b) && RemoveIds(a) == RemoveIds(b)
  {
    forall d ensures d in a <==> d in b {
      assert d in a <==> d in multiset(a);
      assert d in b <==> d in multiset(b);
    }
  }

  lemma DistinctCons(x: BuildTargetSetDelta, t: seq<BuildTargetSetDelta>)
    ensures DistinctIds([x] + t) <==> x.buildTargetId !in Ids(t) && DistinctIds(t)
  {
    var u := [x] + t;
    if DistinctIds(u) {
      forall i, j | 0 <= i < j < |t| ensures t[i].buildTargetId != t[j].buildTargetId {
        assert u[i + 1] == t[i] && u[j + 1] == t[j];
      }
      forall y | y in t ensures y.buildTargetId != x.buildTargetId {
        var m :| 0 <= m < |t| && t[m] == y;
        assert u[0] == x && u[m + 1] == y;
      }
    }
    if x.buildTargetId !in Ids(t) && DistinctIds(t) {
      assert |u| == |t| + 1;
      forall i, j | 0 <= i < j < |u| ensures u[i].buildTargetId != u[j].buildTargetId {
        if i == 0 {
          assert u[0] == x && u[j] == t[j - 1] && t[j - 1] in t;
          assert t[j - 1].buildTargetId in Ids(t);
        } else {
          assert u[i] == t[i - 1] && u[j] == t[j - 1];
        }
      }
    }
  }

  lemma {:induction false} InsertDistinct(d: BuildTargetSetDelta, s: seq<BuildTargetSetDelta>)
    requires DistinctIds(s) && d.buildTargetId !in Ids(s)
    ensures DistinctIds(Insert(d, s))
  {
    if s == [] || d.buildTargetId <= s[0].buildTargetId {
      DistinctCons(d, s);
    } else {
      assert s == [s[0]] + s[1..];
      DistinctCons(s[0], s[1..]);
      IdsCons(s[0], s[1..]);
      InsertDistinct(d, s[1..]);
      InsertIds(d, s[1..]);
      DistinctCons(s[0], Insert(d, s[1..]));
    }
  }

  /** Deltas with distinct ids come out of the sort in strictly ascending order. */
  lemma {:induction false} SortDistinct(ds: seq<BuildTargetSetDelta>)
    requires DistinctIds(ds)
    ensures DistinctIds(SortDeltas(ds))
    ensures StrictlySortedById(SortDeltas(ds))
  {
    if ds != [] {
      assert ds == [ds[0]] + ds[1..];
      DistinctCons(ds[0], ds[1..]);
      SortDistinct(ds[1..]);
      MultisetSameIds(SortDeltas(ds[1..]), ds[1..]);
      InsertDistinct(ds[0], SortDeltas(ds[1..]));
    }
  }

  lemma IdsConsAll(x: BuildTargetSetDelta, t: seq<BuildTargetSetDelta>)
    ensures Ids([x] + t) == {x.buildTargetId} + Ids(t)
    ensures AddIds([x] + t) == (if x.Add? then {x.buildTargetId} else {}) + AddIds(t)
    ensures RemoveIds([x] + t) == (if x.Remove? then {x.buildTargetId} else {}) + RemoveIds(t)
  {
    assert forall y | y in [x] + t :: y == x || y in t;
  }

  // ---------------------------------------------------------------------------------------------
  // Sizes and the set a list of deltas denotes.

  function Contribution(d: BuildTargetSetDelta): int {
    if d.Add? then 1 else -1
  }

  /** The fold in applyDeltas, less its start: one up for each Add, one down for each Remove. */
  function Net(ds: seq<BuildTargetSetDelta>): int {
    if ds == [] then 0 else Contribution(ds[0]) + Net(ds[1..])
  }

  lemma {:induction false} NetInsert(d: BuildTargetSetDelta, s: seq<BuildTargetSetDelta>)
    ensures Net(Insert(d, s)) == Contribution(d) + Net(s)
  {
    if s == [] || d.buildTargetId <= s[0].buildTargetId {
      assert ([d] + s)[1..] == s;
    } else {
      NetInsert(d, s[1..]);
      assert ([s[0]] + Insert(d, s[1..]))[1..] == Insert(d, s[1..]);
    }
  }

  /** Sorting does not change the size arithmetic. */
  lemma {:induction false} NetSort(ds: seq<BuildTargetSetDelta>)
    ensures Net(SortDeltas(ds)) == Net(ds)
  {
    if ds != [] {
      NetSort(ds[1..]);
      NetInsert(ds[0], SortDeltas(ds[1..]));
    }
  }

  function SetOf(s: seq<BuildTargetId>): set<BuildTargetId> {
    set x | x in s
  }

  /** The set the deltas are meant to produce from `base`: `(base \ removed) ∪ added`. */
  function Applied(base: set<BuildTargetId>, ds: seq<BuildTargetSetDelta>): set<BuildTargetId> {
    (base - RemoveIds(ds)) + AddIds(ds)
  }

  /** Every Add names a target not in `base`, every Remove one that is. */
  predicate DeltasFit(base: set<BuildTargetId>, ds: seq<BuildTargetSetDelta>) {
    AddIds(ds) !! base && RemoveIds(ds) <= base
  }

  lemma {:induction false} SortedSetSize(s: BuildTargetSet)
    requires IsBuildTargetSet(s)
    ensures |SetOf(s)| == |s|
  {
    if s != [] {
      assert IsBuildTargetSet(s[1..]) by {
        forall i, j | 0 <= i < j < |s[1..]| ensures s[1..][i] < s[1..][j] {
          assert s[1..][i] == s[i + 1] && s[1..][j] == s[j + 1];
        }
      }
      SortedSetSize(s[1..]);
      assert s == [s[0]] + s[1..];
      assert SetOf(s) == {s[0]} + SetOf(s[1..]);
      assert s[0] !in SetOf(s[1..]) by {
        forall k | 0 <= k < |s[1..]| ensures s[1..][k] != s[0] {
          assert s[1..][k] == s[k + 1];
        }
      }
    }
  }

  /** One delta in front of the rest moves the intended set by that one target. */
  lemma AppliedCons(base: set<BuildTargetId>, d: BuildTargetSetDelta, rest: seq<BuildTargetSetDelta>)
    requires d.buildTargetId !in AddIds(rest)
    ensures Applied(base, [d] + rest) ==
      if d.Add? then Applied(base, rest) + {d.buildTargetId} else Applied(base, rest) - {d.buildTargetId}
  {
    IdsConsAll(d, rest);
    var r, a := RemoveIds(rest), AddIds(rest);
    if d.Add? {
      assert Applied(base, [d] + rest) == (base - r) + (a + {d.buildTargetId});
    } else {
      assert Applied(base, [d] + rest) == (base - (r + {d.buildTargetId})) + a;
    }
  }

  /** With distinct ids that fit `base`, the fold computes exactly the size of the intended set. */
  lemma {:induction false} AppliedSize(base: set<BuildTargetId>, ds: seq<BuildTargetSetDelta>)
    requires DistinctIds(ds) && DeltasFit(base, ds)
    ensures |Applied(base, ds)| == |base| + Net(ds)
  {
    if ds != [] {
      var d, rest := ds[0], ds[1..];
      assert ds == [d] + rest;
      HeadAgainstRest(base, d, rest);
      AppliedSize(base, rest);
      var a := Applied(base, rest);
      if d.Add? {
        assert |a + {d.buildTargetId}| == |a| + 1;
      } else {
        assert |a - {d.buildTargetId}| == |a| - 1;
      }
    }
  }

  /** The head delta moves the set the rest produces by exactly one target. */
  lemma HeadAgainstRest(base: set<BuildTargetId>, d: BuildTargetSetDelta, rest: seq<BuildTargetSetDelta>)
    requires DistinctIds([d] + rest) && DeltasFit(base, [d] + rest)
    ensures DistinctIds(rest) && DeltasFit(base, rest)
    ensures d.Add? ==> d.buildTargetId !in Applied(base, rest) && Applied(base, [d] + rest) == Applied(base, rest) + {d.buildTargetId}
    ensures d.Remove? ==> d.buildTargetId in Applied(base, rest) && Applied(base, [d] + rest) == Applied(base, rest) - {d.buildTargetId}
  {
    DistinctCons(d, rest);
    IdsConsAll(d, rest);
    assert d.buildTargetId !in AddIds(rest) && d.buildTargetId !in RemoveIds(rest);
    AppliedCons(base, d, rest);
  }

  // ---------------------------------------------------------------------------------------------
  // The two-pointer merge of createSimpleSet, over what is left of both inputs and what has been
  // written so far (`acc`, whose length is the write index) into an array of `cap` slots.

  function MergeFrom(base: seq<BuildTargetId>, ds: seq<BuildTargetSetDelta>, acc: seq<BuildTargetId>, cap: int)
    : Result<seq<BuildTargetId>, RdepsError>
    decreases |base| + |ds|
  {
    if base != [] && ds != [] then
      var o, d := base[0], ds[0];
      if o < d.buildTargetId then
        (if |acc| >= cap then Err(IndexOutOfBounds(|acc|)) else MergeFrom(base[1..], ds, acc + [o], cap))
      else if o > d.buildTargetId then
        (if d.Remove? then Err(RemoveOfAbsent(d.buildTargetId))
         else if |acc| >= cap then Err(IndexOutOfBounds(|acc|))
         else MergeFrom(base, ds[1..], acc + [d.buildTargetId], cap))
      else
        (if d.Add? then Err(AddOfPresent(d.buildTargetId)) else MergeFrom(base[1..], ds[1..], acc, cap))
    else if base != [] then
      (if |acc| >= cap then Err(IndexOutOfBounds(|acc|)) else MergeFrom(base[1..], ds, acc + [base[0]], cap))
    else if ds != [] then
      (if ds[0].Remove? then Err(RemoveOfAbsent(ds[0].buildTargetId))
       else if |acc| >= cap then Err(IndexOutOfBounds(|acc|))
       else MergeFrom(base, ds[1..], acc + [ds[0].buildTargetId], cap))
    else if |acc| != cap then Err(SizeMismatch(|acc|, cap))
    else Ok(acc)
  }

  /** The merge's step when the base head is the smaller (or no delta is left). */
  lemma MergeKeepsBase(base: BuildTargetSet, ds: seq<BuildTargetSetDelta>, acc: BuildTargetSet, cap: int)
    requires base != [] && (ds == [] || base[0] < ds[0].buildTargetId)
    ensures MergeFrom(base, ds, acc, cap) ==
      if |acc| >= cap then Err(IndexOutOfBounds(|acc|)) else MergeFrom(base[1..], ds, acc + [base[0]], cap)
  {
  }

  /** The merge's step when the delta head is the smaller (or no base value is left). */
  lemma MergeMeetsDelta(base: BuildTargetSet, ds: seq<BuildTargetSetDelta>, acc: BuildTargetSet, cap: int)
    requires ds != [] && (base == [] || base[0] > ds[0].buildTargetId)
    ensures MergeFrom(base, ds, acc, cap) ==
      if ds[0].Remove? then Err(RemoveOfAbsent(ds[0].buildTargetId))
      else if |acc| >= cap then Err(IndexOutOfBounds(|acc|))
      else MergeFrom(base, ds[1..], acc + [ds[0].buildTargetId], cap)
  {
  }

  /** The merge's step when both heads name the same target. */
  lemma MergeMeetsEqual(base: BuildTargetSet, ds: seq<BuildTargetSetDelta>, acc: BuildTargetSet, cap: int)
    requires base != [] && ds != [] && base[0] == ds[0].buildTargetId
    ensures MergeFrom(base, ds, acc, cap) ==
      if ds[0].Add? then Err(AddOfPresent(ds[0].buildTargetId)) else MergeFrom(base[1..], ds[1..], acc, cap)
  {
  }

  /** The final size check. */
  lemma MergeEnds(acc: BuildTargetSet, cap: int)
    ensures MergeFrom([], [], acc, cap) == if |acc| != cap then Err(SizeMismatch(|acc|, cap)) else Ok(acc)
  {
  }

  /** What has been written is below everything still to be read. */
  predicate Below(acc: seq<BuildTargetId>, base: seq<BuildTargetId>, ds: seq<BuildTargetSetDelta>) {
    acc != [] ==>
      (base != [] ==> acc[|acc| - 1] < base[0]) && (ds != [] ==> acc[|acc| - 1] < ds[0].buildTargetId)
  }

  lemma SortedTail(s: BuildTargetSet)
    requires IsBuildTargetSet(s) && s != []
    ensures IsBuildTargetSet(s[1..])
    ensures SetOf(s) == {s[0]} + SetOf(s[1..])
    ensures forall x | x in SetOf(s[1..]) :: s[0] < x
  {
    assert s == [s[0]] + s[1..];
    forall x | x in SetOf(s[1..]) ensures s[0] < x {
      var k :| 0 <= k < |s[1..]| && s[1..][k] == x;
      assert s[k + 1] == x;
    }
  }

  lemma StrictTail(ds: seq<BuildTargetSetDelta>)
    requires StrictlySortedById(ds) && ds != []
    ensures StrictlySortedById(ds[1..]) && DistinctIds(ds)
    ensures forall x | x in Ids(ds[1..]) :: ds[0].buildTargetId < x
    ensures forall x | x in Ids(ds) :: ds[0].buildTargetId <= x
  {
    assert ds == [ds[0]] + ds[1..];
    IdsConsAll(ds[0], ds[1..]);
    forall x | x in Ids(ds[1..]) ensures ds[0].buildTargetId < x {
      var y :| y in ds[1..] && y.buildTargetId == x;
      var k :| 0 <= k < |ds[1..]| && ds[1..][k] == y;
      assert ds[k + 1] == y;
    }
  }

  lemma SortedSnoc(acc: BuildTargetSet, x: BuildTargetId)
    requires IsBuildTargetSet(acc) && (acc != [] ==> acc[|acc| - 1] < x)
    ensures IsBuildTargetSet(acc + [x]) && SetOf(acc + [x]) == SetOf(acc) + {x}
  {
    var t := acc + [x];
    forall i, j | 0 <= i < j < |t| ensures t[i] < t[j] {
      if j == |acc| {
        assert t[i] == acc[i];
        if i < |acc| - 1 {
          assert acc[i] < acc[|acc| - 1];
        }
      } else {
        assert t[i] == acc[i] && t[j] == acc[j];
      }
    }
  }

  /** What holds of the inputs of every merge step that MergeBuildsApplied covers. */
  predicate MergeReady(base: BuildTargetSet, ds: seq<BuildTargetSetDelta>, acc: BuildTargetSet, cap: int) {
    IsBuildTargetSet(base) && StrictlySortedById(ds) && IsBuildTargetSet(acc) && Below(acc, base, ds)
    && DeltasFit(SetOf(base), ds) && cap == |acc| + |base| + Net(ds)
  }

  /** What MergeBuildsApplied promises of the result. */
  predicate MergeBuilt(r: Result<seq<BuildTargetId>, RdepsError>, base: BuildTargetSet, ds: seq<BuildTargetSetDelta>,
                       acc: BuildTargetSet, cap: int)
  {
    r.Ok? && IsBuildTargetSet(r.value) && SetOf(r.value) == SetOf(acc) + Applied(SetOf(base), ds) && |r.value| == cap
  }

  /**
   * The merge is correct: from a sorted base array and strictly sorted deltas that fit it, with
   * exactly as many slots as the size arithmetic predicts, it writes every slot, in strictly
   * ascending order, and the values written are `(base \ removed) ∪ added`.
   */
  lemma {:induction false} MergeBuildsApplied(base: BuildTargetSet, ds: seq<BuildTargetSetDelta>, acc: BuildTargetSet, cap: int)
    requires MergeReady(base, ds, acc, cap)
    ensures MergeBuilt(MergeFrom(base, ds, acc, cap), base, ds, acc, cap)
    decreases |base| + |ds|, 1
  {
    if base != [] && (ds == [] || base[0] < ds[0].buildTargetId) {
      MergeTakesBase(base, ds, acc, cap);
    } else if ds != [] && (base == [] || base[0] > ds[0].buildTargetId) {
      MergeTakesDelta(base, ds, acc, cap);
    } else if base != [] {
      MergeSkipsBoth(base, ds, acc, cap);
    } else {
      assert ds == [] && base == [];
    }
  }

  lemma Regroup(x: set<BuildTargetId>, a: set<BuildTargetId>, o: BuildTargetId, t: set<BuildTargetId>, b: set<BuildTargetId>)
    requires x == (a + {o}) + t && (b == {o} + t || b == t + {o})
    ensures x == a + b
  {
  }

  /** A base value that no Remove names survives into the intended set. */
  lemma AppliedKeeps(o: BuildTargetId, b: set<BuildTargetId>, ds: seq<BuildTargetSetDelta>)
    requires o !in RemoveIds(ds)
    ensures Applied({o} + b, ds) == {o} + Applied(b, ds)
  {
  }

  lemma BelowAfter(acc: BuildTargetSet, x: BuildTargetId, base: BuildTargetSet, ds: seq<BuildTargetSetDelta>)
    requires base != [] ==> x < base[0]
    requires ds != [] ==> x < ds[0].buildTargetId
    ensures Below(acc + [x], base, ds)
  {
    assert (acc + [x])[|acc + [x]| - 1] == x;
  }

  /** Step: the base value is the smaller head, so it is kept. */
  lemma {:induction false} MergeTakesBase(base: BuildTargetSet, ds: seq<BuildTargetSetDelta>, acc: BuildTargetSet, cap: int)
    requires MergeReady(base, ds, acc, cap)
    requires base != [] && (ds == [] || base[0] < ds[0].buildTargetId)
    ensures MergeBuilt(MergeFrom(base, ds, acc, cap), base, ds, acc, cap)
    decreases |base| + |ds|, 0
  {
    var o, tail := base[0], base[1..];
    BaseHeadKept(base, ds, acc, cap);
    BaseHeadReady(base, ds, acc, cap);
    assert MergeFrom(base, ds, acc, cap) == MergeFrom(tail, ds, acc + [o], cap);
    MergeBuildsApplied(tail, ds, acc + [o], cap);
    var r, t := MergeFrom(tail, ds, acc + [o], cap).value, Applied(SetOf(tail), ds);
    Regroup(SetOf(r), SetOf(acc), o, t, Applied(SetOf(base), ds));
  }

  /** No delta names the smaller base head, so it survives, and there is a slot for it. */
  lemma BaseHeadKept(base: BuildTargetSet, ds: seq<BuildTargetSetDelta>, acc: BuildTargetSet, cap: int)
    requires MergeReady(base, ds, acc, cap)
    requires base != [] && (ds == [] || base[0] < ds[0].buildTargetId)
    ensures |acc| < cap && Applied(SetOf(base), ds) == {base[0]} + Applied(SetOf(base[1..]), ds)
    ensures DeltasFit(SetOf(base[1..]), ds)
  {
    var o, tail := base[0], base[1..];
    SortedTail(base);
    SortedSetSize(base);
    if ds != [] {
      StrictTail(ds);
    } else {
      assert Ids(ds) == {};
    }
    assert o !in Ids(ds);
    AppliedSize(SetOf(base), ds);
    AppliedKeeps(o, SetOf(tail), ds);
    assert o in Applied(SetOf(base), ds);
  }

  lemma BaseHeadReady(base: BuildTargetSet, ds: seq<BuildTargetSetDelta>, acc: BuildTargetSet, cap: int)
    requires base != [] && (ds == [] || base[0] < ds[0].buildTargetId)
    requires MergeReady(base, ds, acc, cap) && DeltasFit(SetOf(base[1..]), ds)
    ensures MergeReady(base[1..], ds, acc + [base[0]], cap) && SetOf(acc + [base[0]]) == SetOf(acc) + {base[0]}
  {
    var o, tail := base[0], base[1..];
    SortedTail(base);
    SortedSnoc(acc, o);
    if tail != [] {
      assert tail[0] in SetOf(tail);
    }
    BelowAfter(acc, o, tail, ds);
  }

  /** Step: the delta is the smaller head, so it must be an Add, and its target is written. */
  lemma {:induction false} MergeTakesDelta(base: BuildTargetSet, ds: seq<BuildTargetSetDelta>, acc: BuildTargetSet, cap: int)
    requires MergeReady(base, ds, acc, cap)
    requires ds != [] && (base == [] || base[0] > ds[0].buildTargetId)
    ensures MergeBuilt(MergeFrom(base, ds, acc, cap), base, ds, acc, cap)
    decreases |base| + |ds|, 0
  {
    var d, rest := ds[0], ds[1..];
    var x := d.buildTargetId;
    DeltaHeadIsAdd(base, ds, acc, cap);
    DeltaHeadRoom(base, ds, acc, cap);
    DeltaHeadReady(base, ds, acc, cap);
    assert MergeFrom(base, ds, acc, cap) == MergeFrom(base, rest, acc + [x], cap);
    MergeBuildsApplied(base, rest, acc + [x], cap);
    var r, t := MergeFrom(base, rest, acc + [x], cap).value, Applied(SetOf(base), rest);
    Regroup(SetOf(r), SetOf(acc), x, t, Applied(SetOf(base), ds));
  }

  /** A delta below every base value cannot remove anything, so it is an Add of a new target. */
  lemma DeltaHeadIsAdd(base: BuildTargetSet, ds: seq<BuildTargetSetDelta>, acc: BuildTargetSet, cap: int)
    requires MergeReady(base, ds, acc, cap)
    requires ds != [] && (base == [] || base[0] > ds[0].buildTargetId)
    ensures ds[0].Add? && ds[0].buildTargetId !in SetOf(base)
    ensures Applied(SetOf(base), ds) == Applied(SetOf(base), ds[1..]) + {ds[0].buildTargetId}
    ensures DeltasFit(SetOf(base), ds[1..])
  {
    var d, rest := ds[0], ds[1..];
    assert ds == [d] + rest;
    if base != [] {
      SortedTail(base);
    }
    assert d.buildTargetId !in SetOf(base);
    IdsConsAll(d, rest);
    StrictTail(ds);
    AppliedCons(SetOf(base), d, rest);
  }

  lemma DeltaHeadRoom(base: BuildTargetSet, ds: seq<BuildTargetSetDelta>, acc: BuildTargetSet, cap: int)
    requires MergeReady(base, ds, acc, cap)
    requires ds != [] && ds[0].Add? && ds[0].buildTargetId !in SetOf(base)
    ensures |acc| < cap
  {
    assert ds == [ds[0]] + ds[1..];
    IdsConsAll(ds[0], ds[1..]);
    StrictTail(ds);
    SortedSetSize(base);
    AppliedSize(SetOf(base), ds);
    assert ds[0].buildTargetId in Applied(SetOf(base), ds);
  }

  lemma DeltaHeadReady(base: BuildTargetSet, ds: seq<BuildTargetSetDelta>, acc: BuildTargetSet, cap: int)
    requires ds != [] && ds[0].Add? && (base == [] || base[0] > ds[0].buildTargetId)
    requires MergeReady(base, ds, acc, cap) && DeltasFit(SetOf(base), ds[1..])
    ensures var x := ds[0].buildTargetId;
      MergeReady(base, ds[1..], acc + [x], cap) && SetOf(acc + [x]) == SetOf(acc) + {x}
  {
    var x, rest := ds[0].buildTargetId, ds[1..];
    StrictTail(ds);
    SortedSnoc(acc, x);
    if rest != [] {
      assert rest[0].buildTargetId in Ids(rest);
    }
    BelowAfter(acc, x, base, rest);
  }

  /** Step: equal heads, so the delta must be a Remove, and both are dropped. */
  lemma {:induction false} MergeSkipsBoth(base: BuildTargetSet, ds: seq<BuildTargetSetDelta>, acc: BuildTargetSet, cap: int)
    requires MergeReady(base, ds, acc, cap)
    requires base != [] && ds != [] && base[0] == ds[0].buildTargetId
    ensures MergeBuilt(MergeFrom(base, ds, acc, cap), base, ds, acc, cap)
    decreases |base| + |ds|, 0
  {
    var o, tail, d, rest := base[0], base[1..], ds[0], ds[1..];
    assert d.Remove? && Applied(SetOf(base), ds) == Applied(SetOf(tail), rest)
        && DeltasFit(SetOf(tail), rest) && StrictlySortedById(rest) by {
      StrictTail(ds);
      assert ds == [d] + rest;
      IdsConsAll(d, rest);
      SortedTail(base);
      assert o !in Ids(rest);
      AppliedCons(SetOf(base), d, rest);
    }
    assert MergeFrom(base, ds, acc, cap) == MergeFrom(tail, rest, acc, cap);
    assert MergeReady(tail, rest, acc, cap) by {
      SortedTail(base);
      StrictTail(ds);
    }
    MergeBuildsApplied(tail, rest, acc, cap);
  }

  /**
   * The merge rejects what it cannot apply. With a sorted base array and strictly sorted deltas,
   * if some Add names a target already present or some Remove one that is absent, the merge
   * ends in an error, whatever the number of slots.
   */
  lemma {:induction false} MergeRejectsMisfit(base: BuildTargetSet, ds: seq<BuildTargetSetDelta>, acc: BuildTargetSet, cap: int)
    requires IsBuildTargetSet(base) && StrictlySortedById(ds)
    requires !DeltasFit(SetOf(base), ds)
    ensures MergeFrom(base, ds, acc, cap).Err?
    decreases |base| + |ds|
  {
    assert ds != [];
    StrictTail(ds);
    IdsConsAll(ds[0], ds[1..]);
    assert ds == [ds[0]] + ds[1..];
    var d, rest := ds[0], ds[1..];
    if base == [] {
      if d.Add? && |acc| < cap {
        MergeRejectsMisfit(base, rest, acc + [d.buildTargetId], cap);
      }
    } else {
      SortedTail(base);
      var o := base[0];
      if o < d.buildTargetId {
        if |acc| < cap {
          assert o !in Ids(ds);
          MergeRejectsMisfit(base[1..], ds, acc + [o], cap);
        }
      } else if o > d.buildTargetId {
        if d.Add? && |acc| < cap {
          assert d.buildTargetId !in SetOf(base);
          MergeRejectsMisfit(base, rest, acc + [d.buildTargetId], cap);
        }
      } else if d.Remove? {
        assert o !in Ids(rest);
        MergeRejectsMisfit(base[1..], rest, acc, cap);
      }
    }
  }

  // ---------------------------------------------------------------------------------------------
  // createSimpleSet

  lemma HasMember(m: set<BuildTargetId>)
    requires m != {}
    ensures exists x :: x in m
  {
    if forall x :: x !in m {
    }
  }

  /** The smallest member of a non-empty set. */
  ghost function Least(m: set<BuildTargetId>): (x: BuildTargetId)
    requires m != {}
    ensures x in m && forall y | y in m :: x <= y
    decreases |m|
  {
    HasMember(m);
    var z :| z in m;
    if m == {z} then
      assert forall y | y in m :: y == z;
      z
    else
      var w := Least(m - {z});
      assert forall y | y in m :: y == z || y in m - {z};
      if z < w then z else w
  }

  /** A persistent set's members in ascending order. */
  ghost function SortedElements(m: set<BuildTargetId>): BuildTargetSet
    decreases |m|
  {
    if m == {} then [] else [Least(m)] + SortedElements(m - {Least(m)})
  }

  lemma {:induction false} SortedElementsFacts(m: set<BuildTargetId>)
    ensures var r := SortedElements(m); IsBuildTargetSet(r) && SetOf(r) == m && |r| == |m|
    decreases |m|
  {
    if m != {} {
      var x := Least(m);
      SortedElementsFacts(m - {x});
      LeastFirst(m, x, SortedElements(m - {x}));
    }
  }

  lemma LeastFirst(m: set<BuildTargetId>, x: BuildTargetId, rest: BuildTargetSet)
    requires x in m && forall y | y in m :: x <= y
    requires IsBuildTargetSet(rest) && SetOf(rest) == m - {x} && |rest| == |m - {x}|
    ensures IsBuildTargetSet([x] + rest) && SetOf([x] + rest) == m && |[x] + rest| == |m|
  {
    forall k | 0 <= k < |rest| ensures x < rest[k] {
      assert rest[k] in SetOf(rest);
    }
    AscendingCons([x] + rest, x, rest);
    assert SetOf([x] + rest) == {x} + SetOf(rest);
  }

  lemma AscendingCons(s: BuildTargetSet, x: BuildTargetId, rest: BuildTargetSet)
    requires s == [x] + rest && IsBuildTargetSet(rest)
    requires forall k | 0 <= k < |rest| :: x < rest[k]
    ensures IsBuildTargetSet(s)
  {
    forall i, j | 0 <= i < j < |s| ensures s[i] < s[j] {
      assert s[j] == rest[j - 1];
      if i > 0 {
        assert s[i] == rest[i - 1];
      }
    }
  }

  /** `toMutableList().toIntArray()` followed by `sort()`: the members, smallest first. */
  method SortMembers(m: set<BuildTargetId>) returns (r: BuildTargetSet)
    ensures r == SortedElements(m)
  {
    r := [];
    var rest := m;
    while rest != {}
      invariant r + SortedElements(rest) == SortedElements(m)
      decreases |rest|
    {
      ghost var least := Least(rest);
      var x :| x in rest && forall y | y in rest :: x <= y;
      assert x == least by {
        assert x <= least && least <= x;
      }
      assert r + SortedElements(rest) == (r + [x]) + SortedElements(rest - {x});
      r, rest := r + [x], rest - {x};
    }
    assert r + [] == r;
  }

  /** The array createSimpleSet merges with: a Unique set's own array, a Persistent set's members sorted. */
  ghost function SortedBase(before: RdepsSet): BuildTargetSet {
    match before
    case Unique(ids) => ids
    case Persistent(m) => SortedElements(m)
  }

  /** The outcome of createSimpleSet(before, deltas, expectedSize). */
  ghost function SimpleSet(before: RdepsSet, deltas: seq<BuildTargetSetDelta>, expectedSize: int): Result<RdepsSet, RdepsError> {
    if expectedSize < 0 then Err(NegativeArraySize(expectedSize))
    else
      match MergeFrom(SortedBase(before), SortDeltas(deltas), [], expectedSize)
      case Ok(ids) => Ok(Unique(ids))
      case Err(e) => Err(e)
  }

  /** Merges the sorted old set and the sorted deltas into a fresh array of `expectedSize` slots. */
  method CreateSimpleSet(before: RdepsSet, deltas: seq<BuildTargetSetDelta>, expectedSize: int)
    returns (r: Result<RdepsSet, RdepsError>)
    ensures r == SimpleSet(before, deltas, expectedSize)
  {
    if expectedSize < 0 {
      return Err(NegativeArraySize(expectedSize));
    }
    var sorted: BuildTargetSet;
    match before {
      case Unique(ids) => sorted := ids;
      case Persistent(m) => sorted := SortMembers(m);
    }
    var ds := SortDeltas(deltas);
    var newBuildTargetSet := new BuildTargetId[expectedSize];
    var filled := Fill(newBuildTargetSet, sorted, ds);
    match filled {
      case Ok(ids) => r := Ok(Unique(ids));
      case Err(e) => r := Err(e);
    }
  }

  /**
   * The merge loops of createSimpleSet: walks both sorted inputs and writes the new set into
   * `out`, failing on the first write past its end or the first delta that cannot apply.
   */
  method Fill(out: array<BuildTargetId>, sorted: BuildTargetSet, ds: seq<BuildTargetSetDelta>)
    returns (r: Result<seq<BuildTargetId>, RdepsError>)
    modifies out
    ensures r == MergeFrom(sorted, ds, [], out.Length)
  {
    var oldIndex, deltaIndex, index := 0, 0, 0;
    ghost var goal := MergeFrom(sorted, ds, [], out.Length);
    assert sorted[0..] == sorted && ds[0..] == ds && out[..0] == [];
    while oldIndex < |sorted| && deltaIndex < |ds|
      invariant 0 <= oldIndex <= |sorted| && 0 <= deltaIndex <= |ds| && 0 <= index <= out.Length
      invariant MergeFrom(sorted[oldIndex..], ds[deltaIndex..], out[..index], out.Length) == goal
      decreases |sorted| - oldIndex + |ds| - deltaIndex
    {
      ghost var b, rest, acc := sorted[oldIndex..], ds[deltaIndex..], out[..index];
      assert b[1..] == sorted[oldIndex + 1..] && rest[1..] == ds[deltaIndex + 1..];
      var oldId, delta := sorted[oldIndex], ds[deltaIndex];
      if oldId < delta.buildTargetId {
        MergeKeepsBase(b, rest, acc, out.Length);
        if index >= out.Length {
          return Err(IndexOutOfBounds(index));
        }
        out[index] := oldId;
        assert out[..index + 1] == acc + [oldId];
        index, oldIndex := index + 1, oldIndex + 1;
      } else if oldId > delta.buildTargetId {
        MergeMeetsDelta(b, rest, acc, out.Length);
        if delta.Remove? {
          return Err(RemoveOfAbsent(delta.buildTargetId));
        }
        if index >= out.Length {
          return Err(IndexOutOfBounds(index));
        }
        out[index] := delta.buildTargetId;
        assert out[..index + 1] == acc + [delta.buildTargetId];
        index, deltaIndex := index + 1, deltaIndex + 1;
      } else {
        MergeMeetsEqual(b, rest, acc, out.Length);
        if delta.Add? {
          return Err(AddOfPresent(delta.buildTargetId));
        }
        oldIndex, deltaIndex := oldIndex + 1, deltaIndex + 1;
      }
    }
    while oldIndex < |sorted|
      invariant 0 <= oldIndex <= |sorted| && 0 <= index <= out.Length
      invariant oldIndex < |sorted| ==> deltaIndex == |ds|
      invariant MergeFrom(sorted[oldIndex..], ds[deltaIndex..], out[..index], out.Length) == goal
      decreases |sorted| - oldIndex
    {
      ghost var b, acc := sorted[oldIndex..], out[..index];
      assert b[1..] == sorted[oldIndex + 1..] && ds[deltaIndex..] == [];
      MergeKeepsBase(b, [], acc, out.Length);
      if index >= out.Length {
        return Err(IndexOutOfBounds(index));
      }
      out[index] := sorted[oldIndex];
      assert out[..index + 1] == acc + [sorted[oldIndex]];
      index, oldIndex := index + 1, oldIndex + 1;
    }
    while deltaIndex < |ds|
      invariant oldIndex == |sorted| && 0 <= deltaIndex <= |ds| && 0 <= index <= out.Length
      invariant MergeFrom([], ds[deltaIndex..], out[..index], out.Length) == goal
      decreases |ds| - deltaIndex
    {
      ghost var rest, acc := ds[deltaIndex..], out[..index];
      assert rest[1..] == ds[deltaIndex + 1..];
      MergeMeetsDelta([], rest, acc, out.Length);
      var delta := ds[deltaIndex];
      deltaIndex := deltaIndex + 1;
      if delta.Remove? {
        return Err(RemoveOfAbsent(delta.buildTargetId));
      }
      if index >= out.Length {
        return Err(IndexOutOfBounds(index));
      }
      out[index] := delta.buildTargetId;
      assert out[..index + 1] == acc + [delta.buildTargetId];
      index := index + 1;
    }
    assert ds[deltaIndex..] == [];
    MergeEnds(out[..index], out.Length);
    if index != out.Length {
      return Err(SizeMismatch(index, out.Length));
    }
    assert out[..index] == out[..];
    return Ok(out[..]);
  }

  /** What the merge starts from agrees with the old set: sorted, same members, same size. */
  lemma SortedBaseFacts(before: RdepsSet)
    requires before.Valid()
    ensures var b := SortedBase(before);
      IsBuildTargetSet(b) && SetOf(b) == before.Elements() && |b| == before.Size() == |before.Elements()|
  {
    match before {
      case Unique(ids) => SortedSetSize(ids);
      case Persistent(m) => SortedElementsFacts(m);
    }
  }

  /**
   * createSimpleSet is correct on deltas that fit: for a valid old set and deltas with distinct
   * targets, each Add new and each Remove present, and the expected size the fold computes, the
   * result is a valid Unique set holding exactly `(old \ removed) ∪ added`.
   */
  lemma SimpleSetCorrect(before: RdepsSet, deltas: seq<BuildTargetSetDelta>, expectedSize: int)
    requires before.Valid() && DistinctIds(deltas) && DeltasFit(before.Elements(), deltas)
    requires expectedSize == before.Size() + Net(deltas)
    ensures var r := SimpleSet(before, deltas, expectedSize);
      r.Ok? && r.value.Unique? && r.value.Valid()
      && r.value.Elements() == Applied(before.Elements(), deltas) && r.value.Size() == expectedSize
  {
    SortedBaseFacts(before);
    MergeOfSorted(SortedBase(before), before.Elements(), deltas, expectedSize);
  }

  /** The merge createSimpleSet runs, from a sorted array holding `base` and the sorted deltas. */
  lemma MergeOfSorted(b: BuildTargetSet, base: set<BuildTargetId>, deltas: seq<BuildTargetSetDelta>, cap: int)
    requires IsBuildTargetSet(b) && SetOf(b) == base && |b| == |base|
    requires DistinctIds(deltas) && DeltasFit(base, deltas) && cap == |base| + Net(deltas)
    ensures var r := MergeFrom(b, SortDeltas(deltas), [], cap);
      r.Ok? && IsBuildTargetSet(r.value) && SetOf(r.value) == Applied(base, deltas) && |r.value| == cap
  {
    var ds := SortDeltas(deltas);
    SortedDeltasFacts(base, deltas);
    MergeStarts(b, ds, cap);
    MergeBuildsApplied(b, ds, [], cap);
    assert SetOf([]) == {};
  }

  lemma MergeStarts(base: BuildTargetSet, ds: seq<BuildTargetSetDelta>, cap: int)
    requires IsBuildTargetSet(base) && StrictlySortedById(ds) && DeltasFit(SetOf(base), ds)
    requires cap == |base| + Net(ds)
    ensures MergeReady(base, ds, [], cap)
  {
  }

  /** Sorting the deltas changes nothing the merge depends on but their order. */
  lemma SortedDeltasFacts(base: set<BuildTargetId>, deltas: seq<BuildTargetSetDelta>)
    requires DistinctIds(deltas) && DeltasFit(base, deltas)
    ensures var ds := SortDeltas(deltas);
      StrictlySortedById(ds) && DistinctIds(ds) && DeltasFit(base, ds)
      && Net(ds) == Net(deltas) && Applied(base, ds) == Applied(base, deltas)
  {
    SortDistinct(deltas);
    MultisetSameIds(SortDeltas(deltas), deltas);
    NetSort(deltas);
  }

  /**
   * createSimpleSet rejects deltas that do not fit: if some Add names a target already present
   * or some Remove one that is absent, it fails, whatever the expected size.
   */
  lemma SimpleSetRejects(before: RdepsSet, deltas: seq<BuildTargetSetDelta>, expectedSize: int)
    requires before.Valid() && DistinctIds(deltas) && !DeltasFit(before.Elements(), deltas)
    ensures SimpleSet(before, deltas, expectedSize).Err?
  {
    if expectedSize >= 0 {
      var b, ds := SortedBase(before), SortDeltas(deltas);
      SortedBaseFacts(before);
      SortDistinct(deltas);
      MultisetSameIds(ds, deltas);
      MergeRejectsMisfit(b, ds, [], expectedSize);
    }
  }

  // ---------------------------------------------------------------------------------------------
  // deriveNewPersistentSet

  function ApplyOne(s: set<BuildTargetId>, d: BuildTargetSetDelta): set<BuildTargetId> {
    if d.Add? then s + {d.buildTargetId} else s - {d.buildTargetId}
  }

  /** `out = out.add(id)` or `out = out.remove(id)` for each delta, first to last. */
  function ApplyInOrder(s: set<BuildTargetId>, ds: seq<BuildTargetSetDelta>): set<BuildTargetId>
    decreases |ds|
  {
    if ds == [] then s else ApplyInOrder(ApplyOne(s, ds[0]), ds[1..])
  }

  method DeriveNewPersistentSet(before: set<BuildTargetId>, deltas: seq<BuildTargetSetDelta>) returns (r: RdepsSet)
    ensures r == Persistent(ApplyInOrder(before, deltas))
  {
    var out := before;
    for i := 0 to |deltas|
      invariant ApplyInOrder(out, deltas[i..]) == ApplyInOrder(before, deltas)
    {
      assert deltas[i..][1..] == deltas[i + 1..];
      var delta := deltas[i];
      if delta.Add? {
        out := out + {delta.buildTargetId};
      } else {
        out := out - {delta.buildTargetId};
      }
    }
    assert deltas[|deltas|..] == [];
    return Persistent(out);
  }

  /**
   * On any deltas at all, the last delta for a target decides whether it is in the persistent
   * set; a target no delta names keeps its old membership.
   */
  lemma {:induction false} LastDeltaWins(s: set<BuildTargetId>, ds: seq<BuildTargetSetDelta>, x: BuildTargetId)
    ensures x in ApplyInOrder(s, ds) <==>
      if OfId(ds, x) == [] then x in s else OfId(ds, x)[|OfId(ds, x)| - 1].Add?
    decreases |ds|
  {
    if ds != [] {
      LastDeltaWins(ApplyOne(s, ds[0]), ds[1..], x);
    }
  }

  /** With distinct targets the persistent path computes `(old \ removed) ∪ added`. */
  lemma {:induction false} ApplyInOrderIsApplied(s: set<BuildTargetId>, ds: seq<BuildTargetSetDelta>)
    requires DistinctIds(ds)
    ensures ApplyInOrder(s, ds) == Applied(s, ds)
    decreases |ds|
  {
    if ds != [] {
      var d, rest := ds[0], ds[1..];
      assert ds == [d] + rest;
      DistinctCons(d, rest);
      IdsConsAll(d, rest);
      ApplyInOrderIsApplied(ApplyOne(s, d), rest);
      var r, a := RemoveIds(rest), AddIds(rest);
      if d.Add? {
        assert (s + {d.buildTargetId} - r) + a == (s - r) + (a + {d.buildTargetId});
      } else {
        assert (s - {d.buildTargetId} - r) + a == (s - (r + {d.buildTargetId})) + a;
      }
    }
  }

  // ---------------------------------------------------------------------------------------------
  // applyDeltas

  /**
   * The outcome of applyDeltas: None for an empty result, a Unique array below the threshold, a
   * Persistent set from the threshold up.
   */
  ghost function AppliedRdeps(before: RdepsSet, deltas: seq<BuildTargetSetDelta>): Result<Option<RdepsSet>, RdepsError> {
    var size := before.Size() + Net(deltas);
    if size == 0 then Ok(None)
    else if size < ThresholdForUniqueVsPersistent then
      match SimpleSet(before, deltas, size)
      case Ok(set1) => Ok(Some(set1))
      case Err(e) => Err(e)
    else Ok(Some(Persistent(ApplyInOrder(before.Elements(), deltas))))
  }

  method ApplyDeltas(before: RdepsSet, deltas: seq<BuildTargetSetDelta>) returns (r: Result<Option<RdepsSet>, RdepsError>)
    ensures r == AppliedRdeps(before, deltas)
  {
    var size := before.Size();
    for i := 0 to |deltas|
      invariant size + Net(deltas[i..]) == before.Size() + Net(deltas)
    {
      assert deltas[i..][1..] == deltas[i + 1..];
      if deltas[i].Add? {
        size := size + 1;
      } else {
        size := size - 1;
      }
    }
    assert deltas[|deltas|..] == [];
    if size == 0 {
      return Ok(None);
    } else if size < ThresholdForUniqueVsPersistent {
      var simple := CreateSimpleSet(before, deltas, size);
      match simple
      case Ok(set1) => return Ok(Some(set1));
      case Err(e) => return Err(e);
    }
    var existing := before.Elements();
    var persistent := DeriveNewPersistentSet(existing, deltas);
    return Ok(Some(persistent));
  }

  /**
   * applyDeltas is correct on deltas that fit a valid old set: the result is None exactly when
   * the new set is empty, and otherwise a valid set holding `(old \ removed) ∪ added`, of the
   * size the fold computes, stored as Unique exactly when that size is below the threshold.
   */
  lemma AppliedRdepsCorrect(before: RdepsSet, deltas: seq<BuildTargetSetDelta>)
    requires before.Valid() && DistinctIds(deltas) && DeltasFit(before.Elements(), deltas)
    ensures var size, r := before.Size() + Net(deltas), AppliedRdeps(before, deltas);
      size == |Applied(before.Elements(), deltas)| && r.Ok?
      && (r.value.None? <==> Applied(before.Elements(), deltas) == {})
      && (r.value.Some? ==>
            r.value.value.Valid() && r.value.value.Elements() == Applied(before.Elements(), deltas)
            && r.value.value.Size() == size && (r.value.value.Unique? <==> size < ThresholdForUniqueVsPersistent))
  {
    var size, target := before.Size() + Net(deltas), Applied(before.Elements(), deltas);
    SortedBaseFacts(before);
    AppliedSize(before.Elements(), deltas);
    if size == 0 {
      assert AppliedRdeps(before, deltas) == Ok(None);
    } else if size < ThresholdForUniqueVsPersistent {
      SimpleSetCorrect(before, deltas, size);
      var set1 := SimpleSet(before, deltas, size).value;
      assert AppliedRdeps(before, deltas) == Ok(Some(set1));
    } else {
      ApplyInOrderIsApplied(before.Elements(), deltas);
      assert AppliedRdeps(before, deltas) == Ok(Some(Persistent(target)));
    }
  }

  /**
   * Deltas that do not fit are only caught on the simple-set path: below the threshold they make
   * applyDeltas fail, a size that nets to zero gives None without any check, a negative size is
   * the array-size error, and from the threshold up the persistent path applies them unchecked.
   */
  lemma AppliedRdepsRejects(before: RdepsSet, deltas: seq<BuildTargetSetDelta>)
    requires before.Valid() && DistinctIds(deltas) && !DeltasFit(before.Elements(), deltas)
    ensures var size := before.Size() + Net(deltas);
      (0 < size < ThresholdForUniqueVsPersistent ==> AppliedRdeps(before, deltas).Err?)
      && (size == 0 ==> AppliedRdeps(before, deltas) == Ok(None))
      && (size < 0 ==> AppliedRdeps(before, deltas) == Err(NegativeArraySize(size)))
      && (size >= ThresholdForUniqueVsPersistent ==> AppliedRdeps(before, deltas).Ok?)
  {
    SimpleSetRejects(before, deltas, before.Size() + Net(deltas));
  }

  /**
   * For every input, applyDeltas returns None exactly when the fold's size is zero, fails with
   * the array-size error when it is negative, and stores a Persistent set from the threshold up.
   */
  lemma AppliedRdepsBySize(before: RdepsSet, deltas: seq<BuildTargetSetDelta>)
    ensures var size, r := before.Size() + Net(deltas), AppliedRdeps(before, deltas);
      (r == Ok(None) <==> size == 0)
      && (size < 0 ==> r == Err(NegativeArraySize(size)))
      && (0 < size < ThresholdForUniqueVsPersistent && r.Ok? ==> r.value.Some? && r.value.value.Unique?)
      && (size >= ThresholdForUniqueVsPersistent ==> r.Ok? && r.value.Some? && r.value.value.Persistent?)
  {
  }

  /**
   * Deltas for one target are applied in their input order even on the simple-set path: a
   * Remove followed by an Add of a present id leaves it present, with no error.
   */
  lemma RemoveThenAddKeeps()
    ensures SimpleSet(Unique([5]), [Remove(5), Add(5)], 1) == Ok(Unique([5]))
  {
    var ds := [Remove(5), Add(5)];
    assert Insert(Add(5), []) == [Add(5)];
    assert SortDeltas([Add(5)]) == [Add(5)];
    assert SortDeltas(ds) == Insert(Remove(5), [Add(5)]);
    assert SortDeltas(ds) == ds;
    assert [5][1..] == [] && ds[1..] == [Add(5)] && [Add(5)][1..] == [] && [] + [5] == [5];
    assert MergeFrom([5], ds, [], 1) == MergeFrom([], [Add(5)], [], 1);
    assert MergeFrom([], [Add(5)], [], 1) == MergeFrom([], [], [5], 1);
  }

  // ---------------------------------------------------------------------------------------------
  // aggregateDeltaDeriveInfos

  /** The targets the deltas name, in order. */
  function TargetIds(ds: seq<BuildTargetSetDelta>): (r: BuildTargetSet)
    ensures |r| == |ds| && forall i | 0 <= i < |ds| :: r[i] == ds[i].buildTargetId
  {
    seq(|ds|, i requires 0 <= i < |ds| => ds[i].buildTargetId)
  }

  /**
   * The set for a target that had no rdeps at the previous generation: every delta must be an
   * Add, and the set is the sorted targets they name.
   */
  function FirstRdeps(deltas: seq<BuildTargetSetDelta>): Result<RdepsSet, RdepsError> {
    if forall d | d in deltas :: d.Add? then Ok(Unique(TargetIds(SortDeltas(deltas))))
    else Err(RemoveForNonExistentSet)
  }

  lemma {:induction false} NetOfAdds(ds: seq<BuildTargetSetDelta>)
    requires forall d | d in ds :: d.Add?
    ensures Net(ds) == |ds|
  {
    if ds != [] {
      assert ds[0] in ds;
      assert forall d | d in ds[1..] :: d in ds;
      NetOfAdds(ds[1..]);
    }
  }

  lemma TargetIdsSet(ds: seq<BuildTargetSetDelta>)
    ensures SetOf(TargetIds(ds)) == Ids(ds)
  {
    var t := TargetIds(ds);
    forall x | x in Ids(ds) ensures x in SetOf(t) {
      var d :| d in ds && d.buildTargetId == x;
      var i :| 0 <= i < |ds| && ds[i] == d;
      assert t[i] == x;
    }
  }

  /**
   * A Remove for a target nobody depended on is an error; otherwise the new set holds exactly the
   * added targets, as many as there are deltas (the same count the fold would give), and with
   * distinct targets it is a valid Unique set.
   */
  lemma FirstRdepsCorrect(deltas: seq<BuildTargetSetDelta>)
    ensures FirstRdeps(deltas).Ok? <==> forall d | d in deltas :: d.Add?
    ensures FirstRdeps(deltas).Ok? ==>
      var s := FirstRdeps(deltas).value;
      s.Unique? && s.Elements() == AddIds(deltas) == Applied({}, deltas) && s.Size() == |deltas| == Net(deltas)
    ensures FirstRdeps(deltas).Ok? && DistinctIds(deltas) ==> FirstRdeps(deltas).value.Valid()
  {
    if forall d | d in deltas :: d.Add? {
      FirstRdepsHoldsAdds(deltas);
      if DistinctIds(deltas) {
        FirstRdepsIsValid(deltas);
      }
    }
  }

  lemma FirstRdepsHoldsAdds(deltas: seq<BuildTargetSetDelta>)
    requires forall d | d in deltas :: d.Add?
    ensures var ids := TargetIds(SortDeltas(deltas));
      SetOf(ids) == AddIds(deltas) == Applied({}, deltas) && |ids| == |deltas| == Net(deltas)
  {
    var sorted := SortDeltas(deltas);
    MultisetSameIds(sorted, deltas);
    TargetIdsSet(sorted);
    NetOfAdds(deltas);
    assert AddIds(deltas) == Ids(deltas);
    assert |sorted| == |multiset(sorted)| == |multiset(deltas)| == |deltas|;
  }

  lemma FirstRdepsIsValid(deltas: seq<BuildTargetSetDelta>)
    requires DistinctIds(deltas)
    ensures IsBuildTargetSet(TargetIds(SortDeltas(deltas)))
  {
    SortDistinct(deltas);
  }

  /** What aggregateDeltaDeriveInfos needs for one target. */
  datatype DeltaDeriveInfo = DeltaDeriveInfo(
    buildTargetId: BuildTargetId,
    oldRdeps: Option<RdepsSet>,
    deltas: seq<BuildTargetSetDelta>)

  /** The new rdeps of one target: None when the new set is empty. */
  ghost function Derived(info: DeltaDeriveInfo): Result<Option<RdepsSet>, RdepsError> {
    match info.oldRdeps
    case None =>
      (match FirstRdeps(info.deltas)
       case Ok(s) => Ok(Some(s))
       case Err(e) => Err(e))
    case Some(before) => AppliedRdeps(before, info.deltas)
  }

  /** `out[buildTargetId] = …` for each info in turn, stopping at the first exception. */
  ghost function AggregateFrom(infos: seq<DeltaDeriveInfo>, out: map<BuildTargetId, Option<RdepsSet>>)
    : Result<map<BuildTargetId, Option<RdepsSet>>, RdepsError>
    decreases |infos|
  {
    if infos == [] then Ok(out)
    else
      match Derived(infos[0])
      case Err(e) => Err(e)
      case Ok(v) => AggregateFrom(infos[1..], out[infos[0].buildTargetId := v])
  }

  method AggregateDeltaDeriveInfos(infos: seq<DeltaDeriveInfo>)
    returns (r: Result<map<BuildTargetId, Option<RdepsSet>>, RdepsError>)
    ensures r == AggregateFrom(infos, map[])
  {
    var out: map<BuildTargetId, Option<RdepsSet>> := map[];
    for i := 0 to |infos|
      invariant AggregateFrom(infos[i..], out) == AggregateFrom(infos, map[])
    {
      assert infos[i..][1..] == infos[i + 1..];
      var info := infos[i];
      var v: Option<RdepsSet>;
      match info.oldRdeps {
        case None =>
          if !(forall d | d in info.deltas :: d.Add?) {
            return Err(RemoveForNonExistentSet);
          }
          var sorted := SortDeltas(info.deltas);
          v := Some(Unique(TargetIds(sorted)));
        case Some(before) =>
          var applied := ApplyDeltas(before, info.deltas);
          if applied.Err? {
            return Err(applied.error);
          }
          v := applied.value;
      }
      out := out[info.buildTargetId := v];
    }
    assert infos[|infos|..] == [];
    return Ok(out);
  }

  function InfoTargets(infos: seq<DeltaDeriveInfo>): set<BuildTargetId> {
    set i | 0 <= i < |infos| :: infos[i].buildTargetId
  }

  predicate DistinctTargets(infos: seq<DeltaDeriveInfo>) {
    forall i, j | 0 <= i < j < |infos| :: infos[i].buildTargetId != infos[j].buildTargetId
  }

  /** How the targets of a list of infos split into its head's and its tail's. */
  lemma InfosCons(infos: seq<DeltaDeriveInfo>)
    requires infos != []
    ensures InfoTargets(infos) == {infos[0].buildTargetId} + InfoTargets(infos[1..])
    ensures DistinctTargets(infos) ==>
      DistinctTargets(infos[1..]) && infos[0].buildTargetId !in InfoTargets(infos[1..])
  {
    var head, rest := infos[0], infos[1..];
    forall k | k in InfoTargets(infos) ensures k in {head.buildTargetId} + InfoTargets(rest) {
      var i :| 0 <= i < |infos| && infos[i].buildTargetId == k;
      if i > 0 {
        assert rest[i - 1] == infos[i];
      }
    }
    forall k | k in InfoTargets(rest) ensures k in InfoTargets(infos) {
      var i :| 0 <= i < |rest| && rest[i].buildTargetId == k;
      assert infos[i + 1] == rest[i];
    }
    if DistinctTargets(infos) {
      forall i, j | 0 <= i < j < |rest| ensures rest[i].buildTargetId != rest[j].buildTargetId {
        assert rest[i] == infos[i + 1] && rest[j] == infos[j + 1];
      }
      forall i | 0 <= i < |rest| ensures rest[i].buildTargetId != head.buildTargetId {
        assert rest[i] == infos[i + 1];
      }
    }
  }

  /**
   * The aggregation succeeds exactly when every target's derivation does; then it maps exactly
   * the given targets (besides what `out` held), each to its own derived set when the targets
   * are distinct, and leaves every other key of `out` alone.
   */
  lemma {:induction false} AggregateCorrect(infos: seq<DeltaDeriveInfo>, out: map<BuildTargetId, Option<RdepsSet>>)
    ensures AggregateFrom(infos, out).Ok? <==> forall i | 0 <= i < |infos| :: Derived(infos[i]).Ok?
    ensures AggregateFrom(infos, out).Ok? ==>
      var m := AggregateFrom(infos, out).value;
      m.Keys == out.Keys + InfoTargets(infos)
      && (forall k | k in out && k !in InfoTargets(infos) :: m[k] == out[k])
      && (DistinctTargets(infos) ==> forall i | 0 <= i < |infos| :: m[infos[i].buildTargetId] == Derived(infos[i]).value)
    decreases |infos|
  {
    if infos != [] {
      var head, rest := infos[0], infos[1..];
      InfosCons(infos);
      if Derived(head).Ok? {
        var out1 := out[head.buildTargetId := Derived(head).value];
        AggregateCorrect(rest, out1);
        forall i | 0 <= i < |rest| ensures Derived(rest[i]) == Derived(infos[i + 1]) {
        }
        if AggregateFrom(infos, out).Ok? && DistinctTargets(infos) {
          var m := AggregateFrom(infos, out).value;
          forall i | 0 <= i < |infos| ensures m[infos[i].buildTargetId] == Derived(infos[i]).value {
            if i > 0 {
              assert infos[i] == rest[i - 1];
            }
          }
        }
      } else {
        assert !Derived(infos[0]).Ok?;
      }
    }
  }

  // ---------------------------------------------------------------------------------------------
  // collectDeltasByTarget and deriveRdepsDeltas

  /** One rdeps update: the target whose rdeps change, and the change. */
  type RdepsUpdate = (BuildTargetId, BuildTargetSetDelta)

  /** The targets of `updates`, each once, in the order they first appear. */
  function FirstSeen(updates: seq<RdepsUpdate>): seq<BuildTargetId> {
    if updates == [] then []
    else
      var prior := FirstSeen(updates[..|updates| - 1]);
      var k := updates[|updates| - 1].0;
      if k in prior then prior else prior + [k]
  }

  /** The deltas `updates` holds for target `k`, in their order. */
  function DeltasFor(updates: seq<RdepsUpdate>, k: BuildTargetId): seq<BuildTargetSetDelta> {
    if updates == [] then []
    else
      var last := updates[|updates| - 1];
      DeltasFor(updates[..|updates| - 1], k) + (if last.0 == k then [last.1] else [])
  }

  function GroupsOf(updates: seq<RdepsUpdate>, keys: seq<BuildTargetId>): seq<(BuildTargetId, seq<BuildTargetSetDelta>)> {
    seq(|keys|, i requires 0 <= i < |keys| => (keys[i], DeltasFor(updates, keys[i])))
  }

  /** The result of collectDeltasByTarget: a LinkedHashMap's entries, in first-insertion order. */
  function Grouped(updates: seq<RdepsUpdate>): seq<(BuildTargetId, seq<BuildTargetSetDelta>)> {
    GroupsOf(updates, FirstSeen(updates))
  }

  function UpdateTargets(updates: seq<RdepsUpdate>): set<BuildTargetId> {
    set i | 0 <= i < |updates| :: updates[i].0
  }

  /** The map collectDeltasByTarget fills: each target seen so far to its deltas. */
  ghost function ByTarget(updates: seq<RdepsUpdate>): map<BuildTargetId, seq<BuildTargetSetDelta>> {
    map k | k in SetOf(FirstSeen(updates)) :: DeltasFor(updates, k)
  }

  method CollectDeltasByTarget(updates: seq<RdepsUpdate>) returns (groups: seq<(BuildTargetId, seq<BuildTargetSetDelta>)>)
    ensures groups == Grouped(updates)
  {
    var keys: seq<BuildTargetId> := [];
    var targetToRdepsUpdates: map<BuildTargetId, seq<BuildTargetSetDelta>> := map[];
    for i := 0 to |updates|
      invariant keys == FirstSeen(updates[..i])
      invariant targetToRdepsUpdates == ByTarget(updates[..i])
    {
      var buildTargetId, delta := updates[i].0, updates[i].1;
      CollectStep(updates[..i], updates[i]);
      assert updates[..i + 1] == updates[..i] + [updates[i]];
      var rdepsUpdates := if buildTargetId in targetToRdepsUpdates then targetToRdepsUpdates[buildTargetId] else [];
      if rdepsUpdates == [] {
        keys := keys + [buildTargetId];
      }
      targetToRdepsUpdates := targetToRdepsUpdates[buildTargetId := rdepsUpdates + [delta]];
    }
    assert updates[..|updates|] == updates;
    groups := [];
    for j := 0 to |keys|
      invariant groups == GroupsOf(updates, keys[..j])
    {
      assert keys[j] in SetOf(keys);
      groups := groups + [(keys[j], targetToRdepsUpdates[keys[j]])];
    }
    assert keys[..|keys|] == keys;
  }

  /** One iteration of collectDeltasByTarget, on the ghost state. */
  lemma CollectStep(p: seq<RdepsUpdate>, u: RdepsUpdate)
    ensures u.0 in ByTarget(p) ==> ByTarget(p)[u.0] != []
    ensures FirstSeen(p + [u]) == if u.0 in ByTarget(p) then FirstSeen(p) else FirstSeen(p) + [u.0]
    ensures ByTarget(p + [u]) ==
      ByTarget(p)[u.0 := (if u.0 in ByTarget(p) then ByTarget(p)[u.0] else []) + [u.1]]
  {
    FirstSeenFacts(p);
    SnocPrefix(p, u);
    var m, m' := ByTarget(p), ByTarget(p + [u]);
    var n := m[u.0 := (if u.0 in m then m[u.0] else []) + [u.1]];
    assert SetOf(FirstSeen(p + [u])) == SetOf(FirstSeen(p)) + {u.0} by {
      if u.0 !in FirstSeen(p) {
        assert SetOf(FirstSeen(p) + [u.0]) == SetOf(FirstSeen(p)) + {u.0};
      }
    }
    assert m'.Keys == n.Keys;
    forall k | k in n ensures m'[k] == n[k] {
      DeltasForSnoc(p, u, k);
    }
  }

  lemma SnocPrefix(p: seq<RdepsUpdate>, u: RdepsUpdate)
    ensures (p + [u])[..|p + [u]| - 1] == p && (p + [u])[|p|] == u
  {
  }

  lemma DeltasForSnoc(p: seq<RdepsUpdate>, u: RdepsUpdate, k: BuildTargetId)
    ensures DeltasFor(p + [u], k) == DeltasFor(p, k) + (if u.0 == k then [u.1] else [])
  {
    SnocPrefix(p, u);
  }

  lemma UpdateTargetsSnoc(p: seq<RdepsUpdate>, u: RdepsUpdate)
    ensures UpdateTargets(p + [u]) == UpdateTargets(p) + {u.0}
    ensures (p + [u])[..|p + [u]| - 1] == p
  {
    var q := p + [u];
    forall k | k in UpdateTargets(q) ensures k in UpdateTargets(p) + {u.0} {
      var i :| 0 <= i < |q| && q[i].0 == k;
      if i < |p| {
        assert q[i] == p[i];
      }
    }
    forall k | k in UpdateTargets(p) ensures k in UpdateTargets(q) {
      var i :| 0 <= i < |p| && p[i].0 == k;
      assert q[i] == p[i];
    }
    assert q[|p|] == u;
  }

  /**
   * The grouping keeps every target once: the keys are distinct, they are exactly the targets of
   * the updates, every group is non-empty, and a target with no update has no deltas.
   */
  lemma {:induction false} FirstSeenFacts(updates: seq<RdepsUpdate>)
    ensures var keys := FirstSeen(updates);
      (forall i, j | 0 <= i < j < |keys| :: keys[i] != keys[j])
      && SetOf(keys) == UpdateTargets(updates)
      && (forall k | k in UpdateTargets(updates) :: DeltasFor(updates, k) != [])
      && (forall k | k !in UpdateTargets(updates) :: DeltasFor(updates, k) == [])
  {
    if updates != [] {
      var p, u := updates[..|updates| - 1], updates[|updates| - 1];
      assert updates == p + [u];
      FirstSeenFacts(p);
      UpdateTargetsSnoc(p, u);
      var prior := FirstSeen(p);
      if u.0 !in prior {
        var keys := prior + [u.0];
        forall i, j | 0 <= i < j < |keys| ensures keys[i] != keys[j] {
          if j == |prior| {
            assert keys[i] == prior[i] && prior[i] in prior;
          } else {
            assert keys[i] == prior[i] && keys[j] == prior[j];
          }
        }
        assert SetOf(keys) == SetOf(prior) + {u.0};
      }
    }
  }

  /** The number of deltas the groups hold altogether. */
  function TotalDeltas(groups: seq<(BuildTargetId, seq<BuildTargetSetDelta>)>): nat {
    if groups == [] then 0 else |groups[0].1| + TotalDeltas(groups[1..])
  }

  function SumFor(updates: seq<RdepsUpdate>, keys: seq<BuildTargetId>): nat {
    if keys == [] then 0 else |DeltasFor(updates, keys[0])| + SumFor(updates, keys[1..])
  }

  function Count(keys: seq<BuildTargetId>, k: BuildTargetId): nat {
    if keys == [] then 0 else (if keys[0] == k then 1 else 0) + Count(keys[1..], k)
  }

  lemma {:induction false} TotalOfGroups(updates: seq<RdepsUpdate>, keys: seq<BuildTargetId>)
    ensures TotalDeltas(GroupsOf(updates, keys)) == SumFor(updates, keys)
    decreases |keys|
  {
    if keys != [] {
      assert GroupsOf(updates, keys)[1..] == GroupsOf(updates, keys[1..]);
      TotalOfGroups(updates, keys[1..]);
    }
  }

  lemma {:induction false} SumForAppend(updates: seq<RdepsUpdate>, a: seq<BuildTargetId>, b: seq<BuildTargetId>)
    ensures SumFor(updates, a + b) == SumFor(updates, a) + SumFor(updates, b)
    decreases |a|
  {
    if a != [] {
      assert (a + b)[1..] == a[1..] + b;
      SumForAppend(updates, a[1..], b);
    } else {
      assert a + b == b;
    }
  }

  /** One more update adds one delta to the group of its target, as often as the target is a key. */
  lemma {:induction false} SumForSnoc(p: seq<RdepsUpdate>, u: RdepsUpdate, keys: seq<BuildTargetId>)
    ensures SumFor(p + [u], keys) == SumFor(p, keys) + Count(keys, u.0)
    decreases |keys|
  {
    UpdateTargetsSnoc(p, u);
    if keys != [] {
      SumForSnoc(p, u, keys[1..]);
    }
  }

  lemma {:induction false} CountOfKey(keys: seq<BuildTargetId>, k: BuildTargetId)
    requires forall i, j | 0 <= i < j < |keys| :: keys[i] != keys[j]
    ensures Count(keys, k) == if k in keys then 1 else 0
    decreases |keys|
  {
    if keys != [] {
      var rest := keys[1..];
      assert forall i, j | 0 <= i < j < |rest| :: rest[i] != rest[j] by {
        forall i, j | 0 <= i < j < |rest| ensures rest[i] != rest[j] {
          assert rest[i] == keys[i + 1] && rest[j] == keys[j + 1];
        }
      }
      CountOfKey(rest, k);
      assert keys == [keys[0]] + rest;
      if keys[0] == k {
        assert k !in rest by {
          forall i | 0 <= i < |rest| ensures rest[i] != k {
            assert rest[i] == keys[i + 1];
          }
        }
      }
    }
  }

  /** Grouping neither loses nor duplicates a delta: the groups hold exactly as many as the updates. */
  lemma {:induction false} GroupingKeepsEveryDelta(updates: seq<RdepsUpdate>)
    ensures TotalDeltas(Grouped(updates)) == |updates|
  {
    TotalOfGroups(updates, FirstSeen(updates));
    KeysSumToLength(updates);
  }

  /**
   * The groups name distinct targets, exactly the updated ones, and each holds the non-empty
   * list of that target's deltas in the order of the updates.
   */
  lemma GroupedShape(updates: seq<RdepsUpdate>)
    ensures var g := Grouped(updates);
      (forall i, j | 0 <= i < j < |g| :: g[i].0 != g[j].0)
      && (set i | 0 <= i < |g| :: g[i].0) == UpdateTargets(updates)
      && forall i | 0 <= i < |g| :: g[i].1 == DeltasFor(updates, g[i].0) && g[i].1 != []
  {
    FirstSeenFacts(updates);
    var g, keys := Grouped(updates), FirstSeen(updates);
    assert (set i | 0 <= i < |g| :: g[i].0) == SetOf(keys) by {
      forall k | k in SetOf(keys) ensures k in (set i | 0 <= i < |g| :: g[i].0) {
        var i :| 0 <= i < |keys| && keys[i] == k;
        assert g[i].0 == k;
      }
    }
  }

  lemma {:induction false} KeysSumToLength(updates: seq<RdepsUpdate>)
    ensures SumFor(updates, FirstSeen(updates)) == |updates|
  {
    if updates != [] {
      var p, u := updates[..|updates| - 1], updates[|updates| - 1];
      assert updates == p + [u];
      KeysSumToLength(p);
      FirstSeenFacts(p);
      var prior := FirstSeen(p);
      CountOfKey(prior, u.0);
      SumForSnoc(p, u, prior);
      if u.0 !in prior {
        SumForAppend(updates, prior, [u.0]);
        assert u.0 !in UpdateTargets(p);
        SumForSnoc(p, u, [u.0]);
        assert SumFor(p, [u.0]) == |DeltasFor(p, u.0)|;
      }
    }
  }

  /** The infos deriveRdepsDeltas builds: each group with its target's rdeps at the generation. */
  function InfosFor(groups: seq<(BuildTargetId, seq<BuildTargetSetDelta>)>, rdepsAtGeneration: BuildTargetId -> Option<RdepsSet>)
    : seq<DeltaDeriveInfo>
  {
    seq(|groups|, i requires 0 <= i < |groups| => DeltaDeriveInfo(groups[i].0, rdepsAtGeneration(groups[i].0), groups[i].1))
  }

  /** The derivation of one target's new rdeps from all the updates. */
  ghost function DerivedFor(updates: seq<RdepsUpdate>, rdepsAtGeneration: BuildTargetId -> Option<RdepsSet>, k: BuildTargetId)
    : Result<Option<RdepsSet>, RdepsError>
  {
    Derived(DeltaDeriveInfo(k, rdepsAtGeneration(k), DeltasFor(updates, k)))
  }

  /**
   * deriveRdepsDeltas: groups the updates by target, looks up each target's rdeps at the
   * generation (`rdepsAtGeneration` stands for the versioned rdeps map), and aggregates.
   */
  method DeriveRdepsDeltas(updates: seq<RdepsUpdate>, rdepsAtGeneration: BuildTargetId -> Option<RdepsSet>)
    returns (r: Result<map<BuildTargetId, Option<RdepsSet>>, RdepsError>)
    ensures r == AggregateFrom(InfosFor(Grouped(updates), rdepsAtGeneration), map[])
  {
    var deltasByTarget := CollectDeltasByTarget(updates);
    var deltaDeriveInfos := InfosFor(deltasByTarget, rdepsAtGeneration);
    r := AggregateDeltaDeriveInfos(deltaDeriveInfos);
  }

  /**
   * The derivation succeeds exactly when every updated target's own derivation does, and then
   * it maps exactly the updated targets, each to its new rdeps from all of its deltas.
   */
  lemma DeriveRdepsDeltasCorrect(updates: seq<RdepsUpdate>, rdepsAtGeneration: BuildTargetId -> Option<RdepsSet>)
    ensures var r := AggregateFrom(InfosFor(Grouped(updates), rdepsAtGeneration), map[]);
      (r.Ok? <==> forall k | k in UpdateTargets(updates) :: DerivedFor(updates, rdepsAtGeneration, k).Ok?)
      && (r.Ok? ==>
            r.value.Keys == UpdateTargets(updates)
            && forall k | k in UpdateTargets(updates) :: r.value[k] == DerivedFor(updates, rdepsAtGeneration, k).value)
  {
    var keys := FirstSeen(updates);
    var infos := InfosFor(Grouped(updates), rdepsAtGeneration);
    FirstSeenFacts(updates);
    AggregateCorrect(infos, map[]);
    assert forall i | 0 <= i < |infos| :: infos[i] == DeltaDeriveInfo(keys[i], rdepsAtGeneration(keys[i]), DeltasFor(updates, keys[i]));
    assert InfoTargets(infos) == SetOf(keys) by {
      forall k | k in SetOf(keys) ensures k in InfoTargets(infos) {
        var i :| 0 <= i < |keys| && keys[i] == k;
        assert infos[i].buildTargetId == k;
      }
    }
    forall k | k in UpdateTargets(updates) ensures exists i :: 0 <= i < |keys| && keys[i] == k {
      assert k in SetOf(keys);
    }
  }
}
