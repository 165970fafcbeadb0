/** The merge sort of P6_Parallel_Sort/psort.c: merge and merge_sort on the shared arrays, the
    partition among threads, and the final merges; all proved to be the stable sort by key. */
module Psort {
  // index: which record; the sort only looks at the key.
  datatype Rec = Rec(key: int, index: int)

  /** Taking the left one on equal keys. */
  function Merge(a: seq<Rec>, b: seq<Rec>): (r: seq<Rec>)
    ensures |r| == |a| + |b|
    decreases |a| + |b|
  {
    if a == [] then b
    else if b == [] then a
    else if a[0].key <= b[0].key then [a[0]] + Merge(a[1..], b)
    else [b[0]] + Merge(a, b[1..])
  }

  function Sort(s: seq<Rec>): (r: seq<Rec>)
    ensures |r| == |s|
    decreases |s|
  {
    if |s| < 2 then s else Merge(Sort(s[..|s| / 2]), Sort(s[|s| / 2..]))
  }

  // ---------------------------------------------------------------- what a stable sort is

  ghost predicate Sorted(s: seq<Rec>) { forall i, j | 0 <= i < j < |s| :: s[i].key <= s[j].key }

  /** The records with key k, in order. */
  ghost function Having(s: seq<Rec>, k: int): seq<Rec>
  {
    if s == [] then [] else (if s[0].key == k then [s[0]] else []) + Having(s[1..], k)
  }

  /** Sorted by key, and for every key the same records in the same order as in s. */
  ghost predicate StableSort(s: seq<Rec>, r: seq<Rec>) { Sorted(r) && forall k :: Having(r, k) == Having(s, k) }

  lemma {:induction false} HavingBoth(a: seq<Rec>, b: seq<Rec>, k: int)
    ensures Having(a + b, k) == Having(a, k) + Having(b, k)
  {
    hide Having;
    if a == [] {
      assert a + b == b;
      HavingEmpty(k);
    } else {
      assert (a + b)[1..] == a[1..] + b;
      HavingBoth(a[1..], b, k);
      HavingFirst(a, k);
      HavingFirst(a + b, k);
      if a[0].key == k { assert [a[0]] + (Having(a[1..], k) + Having(b, k)) == [a[0]] + Having(a[1..], k) + Having(b, k); }
    }
  }

  lemma HavingEmpty(k: int)
    ensures Having([], k) == []
  {
  }

  lemma {:induction false} HavingNone(s: seq<Rec>, k: int)
    requires forall i | 0 <= i < |s| :: s[i].key != k
    ensures Having(s, k) == []
  {
    if s != [] { HavingNone(s[1..], k); }
  }

  lemma {:induction false} HavingSome(s: seq<Rec>, k: int)
    ensures forall x | x in Having(s, k) :: x in s && x.key == k
  {
    if s != [] { HavingSome(s[1..], k); }
  }

  lemma {:induction false} MergeHaving(a: seq<Rec>, b: seq<Rec>, k: int)
    requires Sorted(a) && Sorted(b)
    ensures Having(Merge(a, b), k) == Having(a, k) + Having(b, k)
    decreases |a| + |b|
  {
    if a == [] || b == [] {
      assert Having(a, k) == [] || Having(b, k) == [];
    } else if a[0].key <= b[0].key {
      MergeHaving(a[1..], b, k);
      assert ([a[0]] + Merge(a[1..], b))[1..] == Merge(a[1..], b);
    } else {
      MergeHaving(a, b[1..], k);
      assert ([b[0]] + Merge(a, b[1..]))[1..] == Merge(a, b[1..]);
      if b[0].key == k { HavingNone(a, k); }
    }
  }

  lemma {:induction false} MergeLeast(a: seq<Rec>, b: seq<Rec>, k: int)
    requires (forall i | 0 <= i < |a| :: k <= a[i].key) && (forall i | 0 <= i < |b| :: k <= b[i].key)
    ensures forall i | 0 <= i < |Merge(a, b)| :: k <= Merge(a, b)[i].key
    decreases |a| + |b|
  {
    if a != [] && b != [] {
      if a[0].key <= b[0].key { MergeLeast(a[1..], b, k); } else { MergeLeast(a, b[1..], k); }
    }
  }

  lemma {:induction false} MergeSorted(a: seq<Rec>, b: seq<Rec>)
    requires Sorted(a) && Sorted(b)
    ensures Sorted(Merge(a, b))
    decreases |a| + |b|
  {
    if a != [] && b != [] {
      if a[0].key <= b[0].key {
        MergeSorted(a[1..], b);
        MergeLeast(a[1..], b, a[0].key);
      } else {
        MergeSorted(a, b[1..]);
        MergeLeast(a, b[1..], b[0].key);
      }
    }
  }

  /** Merging the stable sorts of two parts sorts the whole stably. */
  lemma MergeStable(s: seq<Rec>, t: seq<Rec>, a: seq<Rec>, b: seq<Rec>)
    requires StableSort(s, a) && StableSort(t, b)
    ensures StableSort(s + t, Merge(a, b))
  {
    MergeSorted(a, b);
    forall k ensures Having(Merge(a, b), k) == Having(s + t, k) {
      MergeHaving(a, b, k);
      HavingBoth(s, t, k);
    }
  }

  lemma {:induction false} SortStable(s: seq<Rec>)
    ensures StableSort(s, Sort(s))
    decreases |s|
  {
    if |s| >= 2 {
      var m := |s| / 2;
      SortStable(s[..m]);
      SortStable(s[m..]);
      MergeStable(s[..m], s[m..], Sort(s[..m]), Sort(s[m..]));
      assert s[..m] + s[m..] == s;
    }
  }

  lemma HavingFirst(s: seq<Rec>, k: int)
    requires s != []
    ensures if s[0].key == k then Having(s, k) == [s[0]] + Having(s[1..], k) else Having(s, k) == Having(s[1..], k)
    ensures s[0].key == k ==> Having(s, k) != [] && Having(s, k)[0] == s[0] && Having(s, k)[1..] == Having(s[1..], k)
  {
  }

  lemma SameFirst(a: seq<Rec>, b: seq<Rec>)
    requires a != [] && Sorted(a) && Sorted(b) && forall k :: Having(a, k) == Having(b, k)
    ensures b != [] && a[0] == b[0]
  {
    hide Having;
    HavingFirst(a, a[0].key);
    assert a[0] in Having(b, a[0].key);
    HavingSome(b, a[0].key);
    HavingFirst(b, b[0].key);
    assert b[0] in Having(a, b[0].key);
    HavingSome(a, b[0].key);
    HavingFirst(b, a[0].key);
  }

  /** There is one stable sort of a sequence. */
  lemma {:induction false} StableUnique(a: seq<Rec>, b: seq<Rec>)
    requires Sorted(a) && Sorted(b) && forall k :: Having(a, k) == Having(b, k)
    ensures a == b
    decreases |a|
  {
    hide Having;
    if a == [] {
      if b != [] { SameFirst(b, a); }
    } else {
      SameFirst(a, b);
      forall k ensures Having(a[1..], k) == Having(b[1..], k) {
        HavingFirst(a, k);
        HavingFirst(b, k);
      }
      StableUnique(a[1..], b[1..]);
      assert a == [a[0]] + a[1..] && b == [b[0]] + b[1..];
    }
  }

  /** So merging sorted parts gives the sort of the whole, however it was split. */
  lemma SortOfParts(s: seq<Rec>, t: seq<Rec>)
    ensures Merge(Sort(s), Sort(t)) == Sort(s + t)
  {
    SortStable(s);
    SortStable(t);
    SortStable(s + t);
    MergeStable(s, t, Sort(s), Sort(t));
    StableUnique(Merge(Sort(s), Sort(t)), Sort(s + t));
  }

  /** It is a permutation. */
  lemma {:induction false} HavingCounts(s: seq<Rec>, x: Rec)
    ensures multiset(s)[x] == multiset(Having(s, x.key))[x]
  {
    if s != [] {
      HavingCounts(s[1..], x);
      assert s == [s[0]] + s[1..];
      if s[0].key == x.key { assert Having(s, x.key) == [s[0]] + Having(s[1..], x.key); }
      else { assert Having(s, x.key) == Having(s[1..], x.key); }
    }
  }

  lemma SortPermutes(s: seq<Rec>)
    ensures multiset(Sort(s)) == multiset(s)
  {
    SortStable(s);
    forall x: Rec ensures multiset(Sort(s))[x] == multiset(s)[x] {
      HavingCounts(s, x);
      HavingCounts(Sort(s), x);
    }
  }

  // ---------------------------------------------------------------- in place

  /** s with the records from lo on replaced by r. */
  function Patch(s: seq<Rec>, lo: nat, r: seq<Rec>): (t: seq<Rec>)
    requires lo + |r| <= |s|
    ensures |t| == |s|
  {
    s[..lo] + r + s[lo + |r|..]
  }

  // ---------------------------------------------------------------- the partition

  function StartOf(n: nat, threads: nat, i: nat): nat
    requires threads >= 1
  {
    i * (n / threads)
  }

  function EndOf(n: nat, threads: nat, i: nat): nat
    requires threads >= 1
  {
    if i == threads - 1 then n else (i + 1) * (n / threads)
  }

  /** The ranges of the threads are next to each other and cover everything. */
  lemma Partition(n: nat, threads: nat, i: nat)
    requires threads >= 1 && i < threads
    ensures StartOf(n, threads, 0) == 0 && EndOf(n, threads, threads - 1) == n
    ensures StartOf(n, threads, i) <= EndOf(n, threads, i) <= n
    ensures i + 1 < threads ==> EndOf(n, threads, i) == StartOf(n, threads, i + 1)
  {
    var q := n / threads;
    assert threads * q <= n;
    MulMono(i, threads - 1, q);
    MulMono(i + 1, threads, q);
    assert (i + 1) * q == i * q + q;
  }

  lemma MulMono(a: nat, b: nat, q: nat)
    requires a <= b
    ensures a * q <= b * q
  {
  }

  lemma MergeTurn(sofar: seq<Rec>, a: seq<Rec>, b: seq<Rec>)
    requires a != [] && b != []
    ensures if a[0].key <= b[0].key then sofar + Merge(a, b) == sofar + [a[0]] + Merge(a[1..], b)
            else sofar + Merge(a, b) == sofar + [b[0]] + Merge(a, b[1..])
  {
    var r := if a[0].key <= b[0].key then Merge(a[1..], b) else Merge(a, b[1..]);
    var x := if a[0].key <= b[0].key then a[0] else b[0];
    assert Merge(a, b) == [x] + r;
    Regroup(sofar, x, r);
  }

  lemma Regroup(a: seq<Rec>, x: Rec, b: seq<Rec>)
    ensures a + ([x] + b) == a + [x] + b
  {
  }

  lemma MergeOneSide(a: seq<Rec>, b: seq<Rec>)
    requires a == [] || b == []
    ensures Merge(a, b) == a + b
  {
    assert a + [] == a && [] + b == b;
  }

  class Sorter {
    const keys: array<Rec>
    const temp: array<Rec>

    ghost predicate Valid() { keys.Length == temp.Length && keys != temp }

    // merge's first loop: until one side is used up.
    method MergeBoth(start: nat, mid: nat, end: nat) returns (i: nat, j: nat, k: nat)
      requires Valid() && start <= mid <= end <= keys.Length
      modifies temp
      ensures start <= i <= mid <= j <= end && k == i + (j - mid) && (i == mid || j == end)
      ensures temp[start..k] + (keys[i..mid] + keys[j..end]) == Merge(keys[start..mid], keys[mid..end])
      ensures keys[..] == old(keys[..])
      ensures forall x | 0 <= x < temp.Length && !(start <= x < end) :: temp[x] == old(temp[x])
    {
      hide Merge;
      i, j, k := start, mid, start;
      ghost var s, done: seq<Rec> := keys[..], [];
      ghost var all := Merge(s[start..mid], s[mid..end]);
      assert keys[start..mid] == s[start..mid] && keys[mid..end] == s[mid..end];
      assert done + all == all;
      while i < mid && j < end
        invariant start <= i <= mid <= j <= end && k == i + (j - mid)
        invariant |done| == k - start && (forall x | start <= x < k :: temp[x] == done[x - start])
        invariant done + Merge(s[i..mid], s[j..end]) == all
        invariant forall x | 0 <= x < temp.Length && !(start <= x < end) :: temp[x] == old(temp[x])
      {
        assert s[i..mid][1..] == s[i + 1..mid] && s[j..end][1..] == s[j + 1..end];
        MergeTurn(done, s[i..mid], s[j..end]);
        if keys[i].key <= keys[j].key {
          temp[k] := keys[i];
          i := i + 1;
        } else {
          temp[k] := keys[j];
          j := j + 1;
        }
        done := done + [temp[k]];
        k := k + 1;
      }
      MergeOneSide(s[i..mid], s[j..end]);
      assert temp[start..k] == done;
      assert keys[i..mid] == s[i..mid] && keys[j..end] == s[j..end];
    }

    // merge's second and third loop: the rest of one side.
    method CopyRest(from: nat, to: nat, k: nat)
      requires Valid() && from <= to <= keys.Length && k + (to - from) <= temp.Length
      modifies temp
      ensures temp[k..k + (to - from)] == keys[from..to] && keys[..] == old(keys[..])
      ensures forall x | 0 <= x < temp.Length && !(k <= x < k + (to - from)) :: temp[x] == old(temp[x])
    {
      var i := from;
      while i < to
        invariant from <= i <= to && keys[..] == old(keys[..])
        invariant forall x | from <= x < i :: temp[k + (x - from)] == keys[x]
        invariant forall x | 0 <= x < temp.Length && !(k <= x < k + (to - from)) :: temp[x] == old(temp[x])
      {
        temp[k + (i - from)] := keys[i];
        i := i + 1;
      }
    }

    // Both: whatever is left of the two sides.
    method CopyTails(start: nat, i: nat, mid: nat, j: nat, end: nat, k: nat)
      requires Valid() && start <= i <= mid <= j <= end <= keys.Length && k == i + (j - mid)
      modifies temp
      ensures temp[start..end] == old(temp[start..k]) + (keys[i..mid] + keys[j..end]) && keys[..] == old(keys[..])
      ensures forall x | 0 <= x < temp.Length && !(start <= x < end) :: temp[x] == old(temp[x])
    {
      CopyRest(i, mid, k);
      assert temp[start..j] == old(temp[start..k]) + keys[i..mid];
      CopyRest(j, end, k + (mid - i));
      assert temp[start..end] == temp[start..j] + keys[j..end];
    }

    // merge's last loop.
    method CopyBack(start: nat, end: nat)
      requires Valid() && start <= end <= keys.Length
      modifies keys
      ensures keys[..] == Patch(old(keys[..]), start, temp[start..end])
    {
      var i := start;
      while i < end
        invariant start <= i <= end
        invariant forall x | start <= x < i :: keys[x] == temp[x]
        invariant forall x | 0 <= x < keys.Length && !(start <= x < i) :: keys[x] == old(keys[x])
      {
        keys[i] := temp[i];
        i := i + 1;
      }
    }

    /** merge touches only its range of the two arrays. */
    method MergeRange(start: nat, mid: nat, end: nat)
      requires Valid() && start <= mid <= end <= keys.Length
      modifies keys, temp
      ensures keys[..] == MergedRange(old(keys[..]), start, mid, end)
      ensures forall x | 0 <= x < temp.Length && !(start <= x < end) :: temp[x] == old(temp[x])
    {
      hide Merge;
      hide Patch;
      ghost var s := keys[..];
      assert s[start..mid] == keys[start..mid] && s[mid..end] == keys[mid..end];
      var i, j, k := MergeBoth(start, mid, end);
      CopyTails(start, i, mid, j, end, k);
      CopyBack(start, end);
    }

    method MergeSort(start: nat, end: nat)
      requires Valid() && start <= end <= keys.Length
      modifies keys, temp
      ensures keys[..] == SortedRange(old(keys[..]), start, end)
      ensures forall x | 0 <= x < temp.Length && !(start <= x < end) :: temp[x] == old(temp[x])
      decreases end - start
    {
      hide SortedRange;
      hide MergedRange;
      ghost var s := keys[..];
      if end - start < 2 {
        SortShort(s, start, end);
        return;
      }
      var mid := start + (end - start) / 2;
      SortInSteps(s, start, end);
      MergeSort(start, mid);
      MergeSort(mid, end);
      MergeRange(start, mid, end);
    }

    /** main's final merges, whatever the threads have left in keys. */
    method FinalMerge(threads: nat)
      requires Valid() && threads >= 1
      modifies keys, temp
      ensures keys[..] == FinalMerges(old(keys[..]), threads, threads)
    {
      hide MergedRange;
      hide StartOf;
      hide EndOf;
      var i := 0;
      while i < threads
        invariant 0 <= i <= threads && keys[..] == FinalMerges(old(keys[..]), threads, i)
      {
        Partition(keys.Length, threads, i);
        MergeRange(0, StartOf(keys.Length, threads, i), EndOf(keys.Length, threads, i));
        i := i + 1;
      }
    }
  }

  /** The keys after the first i of the final merges. */
  function FinalMerges(keys: seq<Rec>, threads: nat, i: nat): (r: seq<Rec>)
    requires threads >= 1 && i <= threads
    ensures |r| == |keys|
  {
    if i == 0 then keys
    else
      Partition(|keys|, threads, i - 1);
      MergedRange(FinalMerges(keys, threads, i - 1), 0, StartOf(|keys|, threads, i - 1), EndOf(|keys|, threads, i - 1))
  }

  /** Once every range is sorted, the final merges give the sort of the whole. */
  lemma FinalMergesSort(s: seq<Rec>, keys: seq<Rec>, threads: nat)
    requires threads >= 1 && |keys| == |s| && forall i: nat | i < threads :: SortedPart(s, keys, threads, i)
    ensures FinalMerges(keys, threads, threads) == Sort(s)
  {
    FinalMergesUpTo(s, keys, threads, threads);
    MergedAll(s, FinalMerges(keys, threads, threads), threads);
  }

  lemma {:induction false} FinalMergesUpTo(s: seq<Rec>, keys: seq<Rec>, threads: nat, i: nat)
    requires threads >= 1 && i <= threads && |keys| == |s| && forall j: nat | j < threads :: SortedPart(s, keys, threads, j)
    ensures MergedUpTo(s, FinalMerges(keys, threads, i), threads, i)
  {
    hide MergedRange;
    hide MergedUpTo;
    hide StartOf;
    hide EndOf;
    if i == 0 {
      MergedNone(s, keys, threads);
    } else {
      FinalMergesUpTo(s, keys, threads, i - 1);
      MergedNext(s, FinalMerges(keys, threads, i - 1), threads, i - 1);
    }
  }

  function MergedRange(s: seq<Rec>, start: nat, mid: nat, end: nat): (r: seq<Rec>)
    requires start <= mid <= end <= |s|
    ensures |r| == |s|
  {
    Patch(s, start, Merge(s[start..mid], s[mid..end]))
  }

  function SortedRange(s: seq<Rec>, start: nat, end: nat): (r: seq<Rec>)
    requires start <= end <= |s|
    ensures |r| == |s|
  {
    Patch(s, start, Sort(s[start..end]))
  }

  lemma PatchIs(s: seq<Rec>, lo: nat, r: seq<Rec>)
    requires lo + |r| <= |s|
    ensures var t := Patch(s, lo, r);
      && t[..lo] == s[..lo] && t[lo..lo + |r|] == r && t[lo + |r|..] == s[lo + |r|..]
      && forall i | 0 <= i < |s| :: t[i] == if lo <= i < lo + |r| then r[i - lo] else s[i]
  {
  }

  lemma SortShort(s: seq<Rec>, start: nat, end: nat)
    requires start <= end <= |s| && end - start < 2
    ensures SortedRange(s, start, end) == s
  {
    assert Sort(s[start..end]) == s[start..end];
  }

  /** merge_sort on a range is its two halves and a merge. */
  lemma SortInSteps(s: seq<Rec>, start: nat, end: nat)
    requires start <= end <= |s| && end - start >= 2
    ensures var mid := start + (end - start) / 2;
      SortedRange(s, start, end) == MergedRange(SortedRange(SortedRange(s, start, mid), mid, end), start, mid, end)
  {
    hide Merge;
    hide Sort;
    hide Patch;
    var mid := start + (end - start) / 2;
    var p := s[start..end];
    assert p[..|p| / 2] == s[start..mid] && p[|p| / 2..] == s[mid..end];
    SortUnfolds(p);
    var a, b := Sort(s[start..mid]), Sort(s[mid..end]);
    PatchIs(s, start, a);
    var s1 := Patch(s, start, a);
    assert s1[mid..end] == s[mid..end];
    PatchIs(s1, mid, b);
    var s2 := Patch(s1, mid, b);
    assert s2[start..mid] == a && s2[mid..end] == b;
    PatchIs(s2, start, Merge(a, b));
    PatchIs(s, start, Merge(a, b));
    assert Patch(s2, start, Merge(a, b)) == Patch(s, start, Merge(a, b));
  }

  lemma SortUnfolds(s: seq<Rec>)
    requires |s| >= 2
    ensures Sort(s) == Merge(Sort(s[..|s| / 2]), Sort(s[|s| / 2..]))
  {
  }

  /** After i final merges the ranges up to there are one sorted run, and the rest are as the
      threads left them. */
  ghost predicate MergedUpTo(s: seq<Rec>, keys: seq<Rec>, threads: nat, i: nat)
    requires threads >= 1
  {
    var done := if i == 0 then 0 else EndOf(|s|, threads, i - 1);
    && |keys| == |s| && i <= threads && done <= |s| && (i < threads ==> done == StartOf(|s|, threads, i))
    && keys[..done] == Sort(s[..done])
    && forall j: nat | i <= j < threads :: SortedPart(s, keys, threads, j)
  }

  lemma MergedNone(s: seq<Rec>, keys: seq<Rec>, threads: nat)
    requires threads >= 1 && |keys| == |s| && forall i: nat | i < threads :: SortedPart(s, keys, threads, i)
    ensures MergedUpTo(s, keys, threads, 0)
  {
    Partition(|s|, threads, 0);
  }

  lemma MergedNext(s: seq<Rec>, keys: seq<Rec>, threads: nat, i: nat)
    requires threads >= 1 && i < threads && MergedUpTo(s, keys, threads, i)
    ensures StartOf(|s|, threads, i) <= EndOf(|s|, threads, i) <= |s| == |keys|
    ensures MergedUpTo(s, MergedRange(keys, 0, StartOf(|s|, threads, i), EndOf(|s|, threads, i)), threads, i + 1)
  {
    hide Merge;
    hide Sort;
    hide Patch;
    hide StartOf;
    hide EndOf;
    Partition(|s|, threads, i);
    var lo, hi := StartOf(|s|, threads, i), EndOf(|s|, threads, i);
    assert SortedPart(s, keys, threads, i);
    assert keys[0..lo] == keys[..lo] && s[..lo] + s[lo..hi] == s[..hi];
    SortOfParts(s[..lo], s[lo..hi]);
    var r := Merge(keys[0..lo], keys[lo..hi]);
    var after := MergedRange(keys, 0, lo, hi);
    PatchIs(keys, 0, r);
    assert after[..hi] == after[0..hi] == r;
    LaterParts(s, keys, after, threads, i);
  }

  lemma MergedAll(s: seq<Rec>, keys: seq<Rec>, threads: nat)
    requires threads >= 1 && MergedUpTo(s, keys, threads, threads)
    ensures keys == Sort(s)
  {
    Partition(|s|, threads, threads - 1);
    assert keys[..|s|] == keys && s[..|s|] == s;
  }

  /** Thread i's range of keys holds the sort of what was there. */
  ghost predicate SortedPart(s: seq<Rec>, keys: seq<Rec>, threads: nat, i: nat)
    requires threads >= 1 && i < threads && |keys| == |s|
  {
    var lo, hi := StartOf(|s|, threads, i), EndOf(|s|, threads, i);
    lo <= hi <= |s| && keys[lo..hi] == Sort(s[lo..hi])
  }

  lemma {:induction false} Ascending(n: nat, threads: nat, i: nat, j: nat)
    requires threads >= 1 && i < j < threads
    ensures EndOf(n, threads, i) <= StartOf(n, threads, j)
    decreases j - i
  {
    Partition(n, threads, i);
    if i + 1 < j {
      Ascending(n, threads, i + 1, j);
      Partition(n, threads, i + 1);
    }
  }

  // What changes up to the end of range i leaves the later ranges.
  lemma LaterParts(s: seq<Rec>, before: seq<Rec>, after: seq<Rec>, threads: nat, i: nat)
    requires threads >= 1 && i < threads && |before| == |after| == |s|
    requires forall x | EndOf(|s|, threads, i) <= x < |s| :: after[x] == before[x]
    requires forall j: nat | i < j < threads :: SortedPart(s, before, threads, j)
    ensures forall j: nat | i < j < threads :: SortedPart(s, after, threads, j)
  {
    forall j: nat | i < j < threads ensures SortedPart(s, after, threads, j) {
      assert SortedPart(s, before, threads, j);
      Ascending(|s|, threads, i, j);
      var lo, hi := StartOf(|s|, threads, j), EndOf(|s|, threads, j);
      assert after[lo..hi] == before[lo..hi];
    }
  }
}
