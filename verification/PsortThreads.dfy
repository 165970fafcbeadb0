/** The sorting threads of P6_Parallel_Sort/psort.c over the shared keys and temp, interleaved
    step by step in any order: one comparison and copy, or one copy back, at a time. */
module PsortThreads {
  import opened Psort
  import opened Wrappers

  // A call in progress. In Merging the next free place of temp is i + (j - mid).
  datatype Frame =
    | SortCall(lo: nat, hi: nat)
    | MergeCall(lo: nat, mid: nat, hi: nat)
    | Merging(lo: nat, mid: nat, hi: nat, i: nat, j: nat)
    | Copying(lo: nat, hi: nat, i: nat)

  datatype Mem = Mem(keys: seq<Rec>, temp: seq<Rec>)

  /** A thread is its stack of calls, the innermost first. */
  type Stack = seq<Frame>

  predicate FrameOk(f: Frame, lo: nat, hi: nat) {
    match f
    case SortCall(a, b) => lo <= a <= b <= hi
    case MergeCall(a, m, b) => lo <= a <= m <= b <= hi
    case Merging(a, m, b, i, j) => lo <= a <= i <= m <= j <= b <= hi
    case Copying(a, b, i) => lo <= a <= i <= b <= hi
  }

  predicate Waiting(f: Frame) { f.SortCall? || f.MergeCall? }

  /** The thread works in its range, and only its innermost call is under way. */
  ghost predicate StackOk(st: Stack, lo: nat, hi: nat) {
    && (forall i | 0 <= i < |st| :: FrameOk(st[i], lo, hi))
    && (forall i | 1 <= i < |st| :: Waiting(st[i]))
  }

  function StepTop(m: Mem, f: Frame): (Mem, Stack)
    requires |m.keys| == |m.temp| && FrameOk(f, 0, |m.keys|)
  {
    match f
    case SortCall(lo, hi) =>
      if hi - lo < 2 then (m, [])
      else
        var mid := lo + (hi - lo) / 2;
        (m, [SortCall(lo, mid), SortCall(mid, hi), MergeCall(lo, mid, hi)])
    case MergeCall(lo, mid, hi) => (m, [Merging(lo, mid, hi, lo, mid)])
    case Merging(lo, mid, hi, i, j) =>
      var k := i + (j - mid);
      if i < mid && (j == hi || m.keys[i].key <= m.keys[j].key) then
        (m.(temp := m.temp[k := m.keys[i]]), [Merging(lo, mid, hi, i + 1, j)])
      else if j < hi then (m.(temp := m.temp[k := m.keys[j]]), [Merging(lo, mid, hi, i, j + 1)])
      else (m, [Copying(lo, hi, lo)])
    case Copying(lo, hi, i) =>
      if i < hi then (m.(keys := m.keys[i := m.temp[i]]), [Copying(lo, hi, i + 1)]) else (m, [])
  }

  function StepThread(m: Mem, st: Stack): (Mem, Stack)
    requires st != [] && |m.keys| == |m.temp| && FrameOk(st[0], 0, |m.keys|)
  {
    var (m1, top) := StepTop(m, st[0]);
    (m1, top + st[1..])
  }

  // ---------------------------------------------------------------- what a thread is about to do

  /** The keys after the call f has run to its end with nobody in the way. */
  ghost function FinishTop(m: Mem, f: Frame): (r: seq<Rec>)
    requires |m.keys| == |m.temp| && FrameOk(f, 0, |m.keys|)
    ensures |r| == |m.keys|
  {
    match f
    case SortCall(lo, hi) => SortedRange(m.keys, lo, hi)
    case MergeCall(lo, mid, hi) => MergedRange(m.keys, lo, mid, hi)
    case Merging(lo, mid, hi, i, j) => Patch(m.keys, lo, Merged(m, lo, mid, hi, i, j))
    case Copying(lo, hi, i) => Patch(m.keys, i, m.temp[i..hi])
  }

  ghost function Finish(m: Mem, st: Stack): (r: seq<Rec>)
    requires |m.keys| == |m.temp| && StackOk(st, 0, |m.keys|)
    ensures |r| == |m.keys|
    decreases |st|
  {
    if st == [] then m.keys else Finish(m.(keys := FinishTop(m, st[0])), st[1..])
  }

  ghost function FinishRest(keys: seq<Rec>, st: Stack): (r: seq<Rec>)
    requires StackOk(st, 0, |keys|) && forall i | 0 <= i < |st| :: Waiting(st[i])
    ensures |r| == |keys|
    decreases |st|
  {
    if st == [] then keys else FinishRest(FinishTop(Mem(keys, keys), st[0]), st[1..])
  }

  // The waiting calls do not look at temp.
  lemma {:induction false} FinishIs(m: Mem, st: Stack)
    requires |m.keys| == |m.temp| && StackOk(st, 0, |m.keys|) && forall i | 0 <= i < |st| :: Waiting(st[i])
    ensures Finish(m, st) == FinishRest(m.keys, st)
    decreases |st|
  {
    if st != [] { FinishIs(m.(keys := FinishTop(m, st[0])), st[1..]); }
  }

  lemma FinishTopRest(m: Mem, st: Stack)
    requires st != [] && |m.keys| == |m.temp| && StackOk(st, 0, |m.keys|)
    ensures StackOk(st[1..], 0, |m.keys|) && Finish(m, st) == FinishRest(FinishTop(m, st[0]), st[1..])
  {
    FinishIs(m.(keys := FinishTop(m, st[0])), st[1..]);
  }

  lemma TopStepFrames(m: Mem, f: Frame, lo: nat, hi: nat)
    requires |m.keys| == |m.temp| && FrameOk(f, lo, hi) && hi <= |m.keys|
    ensures var (m1, top) := StepTop(m, f);
      && |m1.keys| == |m.keys| == |m1.temp| && StackOk(top, lo, hi)
      && (forall x | 0 <= x < |m.keys| && !(lo <= x < hi) :: m1.keys[x] == m.keys[x] && m1.temp[x] == m.temp[x])
  {
  }

  /** A thread's own step does not change what it is about to do. */
  lemma TopStepFinish(m: Mem, f: Frame)
    requires |m.keys| == |m.temp| && FrameOk(f, 0, |m.keys|)
    ensures var (m1, top) := StepTop(m, f);
      |m1.keys| == |m.keys| == |m1.temp| && StackOk(top, 0, |m.keys|) && Finish(m1, top) == FinishTop(m, f)
  {
    TopStepFrames(m, f, 0, |m.keys|);
    match f
    case SortCall(lo, hi) => FinishSort(m, lo, hi);
    case MergeCall(lo, mid, hi) => FinishMergeCall(m, lo, mid, hi);
    case Merging(lo, mid, hi, i, j) => FinishMerging(m, lo, mid, hi, i, j);
    case Copying(lo, hi, i) => FinishCopying(m, lo, hi, i);
  }

  lemma OneFrame(m: Mem, f: Frame)
    requires |m.keys| == |m.temp| && FrameOk(f, 0, |m.keys|)
    ensures Finish(m, [f]) == FinishTop(m, f)
  {
    assert [f][1..] == [];
  }

  lemma FinishSort(m: Mem, lo: nat, hi: nat)
    requires |m.keys| == |m.temp| && lo <= hi <= |m.keys|
    ensures var (m1, top) := StepTop(m, SortCall(lo, hi));
      |m1.keys| == |m.keys| == |m1.temp| && StackOk(top, 0, |m.keys|) && Finish(m1, top) == SortedRange(m.keys, lo, hi)
  {
    hide SortedRange;
    hide MergedRange;
    if hi - lo < 2 {
      SortShort(m.keys, lo, hi);
    } else {
      SortInSteps(m.keys, lo, hi);
      var mid := lo + (hi - lo) / 2;
      var a, b, c := SortCall(lo, mid), SortCall(mid, hi), MergeCall(lo, mid, hi);
      assert [a, b, c][1..] == [b, c] && [b, c][1..] == [c];
      OneFrame(Mem(SortedRange(SortedRange(m.keys, lo, mid), mid, hi), m.temp), c);
    }
  }

  lemma FinishMergeCall(m: Mem, lo: nat, mid: nat, hi: nat)
    requires |m.keys| == |m.temp| && lo <= mid <= hi <= |m.keys|
    ensures Finish(m, [Merging(lo, mid, hi, lo, mid)]) == MergedRange(m.keys, lo, mid, hi)
  {
    OneFrame(m, Merging(lo, mid, hi, lo, mid));
    assert m.temp[lo..lo] + Merge(m.keys[lo..mid], m.keys[mid..hi]) == Merge(m.keys[lo..mid], m.keys[mid..hi]);
  }

  // temp so far and the merge still to do.
  ghost function Merged(m: Mem, lo: nat, mid: nat, hi: nat, i: nat, j: nat): (r: seq<Rec>)
    requires |m.keys| == |m.temp| && lo <= i <= mid <= j <= hi <= |m.keys|
    ensures |r| == hi - lo
  {
    m.temp[lo..i + (j - mid)] + Merge(m.keys[i..mid], m.keys[j..hi])
  }

  lemma TakeLeft(m: Mem, lo: nat, mid: nat, hi: nat, i: nat, j: nat)
    requires |m.keys| == |m.temp| && lo <= i < mid <= j <= hi <= |m.keys| && (j == hi || m.keys[i].key <= m.keys[j].key)
    ensures Merged(m.(temp := m.temp[i + (j - mid) := m.keys[i]]), lo, mid, hi, i + 1, j) == Merged(m, lo, mid, hi, i, j)
  {
    hide Merge;
    var k, a, b := i + (j - mid), m.keys[i..mid], m.keys[j..hi];
    var temp1 := m.temp[k := m.keys[i]];
    assert a[1..] == m.keys[i + 1..mid];
    MergeTakes(a, b, true);
    assert temp1[lo..k + 1] == m.temp[lo..k] + [a[0]];
    assert m.temp[lo..k] + ([a[0]] + Merge(a[1..], b)) == m.temp[lo..k] + [a[0]] + Merge(a[1..], b);
  }

  lemma TakeRight(m: Mem, lo: nat, mid: nat, hi: nat, i: nat, j: nat)
    requires |m.keys| == |m.temp| && lo <= i <= mid <= j < hi <= |m.keys| && (i == mid || m.keys[i].key > m.keys[j].key)
    ensures Merged(m.(temp := m.temp[i + (j - mid) := m.keys[j]]), lo, mid, hi, i, j + 1) == Merged(m, lo, mid, hi, i, j)
  {
    hide Merge;
    var k, a, b := i + (j - mid), m.keys[i..mid], m.keys[j..hi];
    var temp1 := m.temp[k := m.keys[j]];
    assert b[1..] == m.keys[j + 1..hi];
    MergeTakes(a, b, false);
    assert temp1[lo..k + 1] == m.temp[lo..k] + [b[0]];
    assert m.temp[lo..k] + ([b[0]] + Merge(a, b[1..])) == m.temp[lo..k] + [b[0]] + Merge(a, b[1..]);
  }

  lemma FinishMerging(m: Mem, lo: nat, mid: nat, hi: nat, i: nat, j: nat)
    requires |m.keys| == |m.temp| && lo <= i <= mid <= j <= hi <= |m.keys|
    ensures var f := Merging(lo, mid, hi, i, j); var (m1, top) := StepTop(m, f);
      |m1.keys| == |m.keys| == |m1.temp| && StackOk(top, 0, |m.keys|) && Finish(m1, top) == FinishTop(m, f)
  {
    hide Patch;
    hide Merge;
    var f := Merging(lo, mid, hi, i, j);
    var (m1, top) := StepTop(m, f);
    OneFrame(m1, top[0]);
    if i < mid && (j == hi || m.keys[i].key <= m.keys[j].key) { TakeLeft(m, lo, mid, hi, i, j); }
    else if j < hi { TakeRight(m, lo, mid, hi, i, j); }
    else { assert Merge(m.keys[i..mid], m.keys[j..hi]) == []; assert Merged(m, lo, mid, hi, i, j) == m.temp[lo..hi]; }
  }

  lemma MergeTakes(a: seq<Rec>, b: seq<Rec>, left: bool)
    requires if left then a != [] && (b == [] || a[0].key <= b[0].key) else b != [] && (a == [] || a[0].key > b[0].key)
    ensures Merge(a, b) == if left then [a[0]] + Merge(a[1..], b) else [b[0]] + Merge(a, b[1..])
  {
    if left && b == [] { assert a == [a[0]] + a[1..]; }
    if !left && a == [] { assert b == [b[0]] + b[1..]; }
  }

  lemma FinishCopying(m: Mem, lo: nat, hi: nat, i: nat)
    requires |m.keys| == |m.temp| && lo <= i <= hi <= |m.keys|
    ensures var f := Copying(lo, hi, i); var (m1, top) := StepTop(m, f);
      |m1.keys| == |m.keys| == |m1.temp| && StackOk(top, 0, |m.keys|) && Finish(m1, top) == FinishTop(m, f)
  {
    var f := Copying(lo, hi, i);
    var (m1, top) := StepTop(m, f);
    if i < hi {
      OneFrame(m1, top[0]);
      assert Patch(m1.keys, i + 1, m.temp[i + 1..hi]) == Patch(m.keys, i, m.temp[i..hi]);
    }
  }

  // The calls on top, then the waiting ones below.
  lemma {:induction false} FinishBoth(m: Mem, top: Stack, rest: Stack)
    requires |m.keys| == |m.temp| && StackOk(top, 0, |m.keys|) && StackOk(rest, 0, |m.keys|)
    requires forall i | 0 <= i < |rest| :: Waiting(rest[i])
    ensures StackOk(top + rest, 0, |m.keys|) && Finish(m, top + rest) == FinishRest(Finish(m, top), rest)
    decreases |top|
  {
    if top == [] {
      assert top + rest == rest;
      FinishIs(m, rest);
    } else {
      assert (top + rest)[1..] == top[1..] + rest;
      FinishBoth(m.(keys := FinishTop(m, top[0])), top[1..], rest);
    }
  }

  lemma StepFinish(m: Mem, st: Stack)
    requires st != [] && |m.keys| == |m.temp| && StackOk(st, 0, |m.keys|)
    ensures var (m1, st1) := StepThread(m, st);
      |m1.keys| == |m.keys| == |m1.temp| && StackOk(st1, 0, |m.keys|) && Finish(m1, st1) == Finish(m, st)
  {
    hide StepTop;
    hide Finish;
    hide FinishTop;
    TopStepFinish(m, st[0]);
    FinishTopRest(m, st);
    FinishBoth(StepTop(m, st[0]).0, StepTop(m, st[0]).1, st[1..]);
  }

  // ---------------------------------------------------------------- the other threads do not matter

  // The two memories agree on lo..hi.
  ghost predicate Agree(m: Mem, n: Mem, lo: nat, hi: nat) {
    && |m.keys| == |m.temp| == |n.keys| == |n.temp| && lo <= hi <= |m.keys|
    && m.keys[lo..hi] == n.keys[lo..hi] && m.temp[lo..hi] == n.temp[lo..hi]
  }

  lemma AgreeInside(m: Mem, n: Mem, lo: nat, hi: nat, a: nat, b: nat)
    requires Agree(m, n, lo, hi) && lo <= a <= b <= hi
    ensures m.keys[a..b] == n.keys[a..b] && m.temp[a..b] == n.temp[a..b]
  {
    SliceOfSlice(m.keys, lo, hi, a, b);
    SliceOfSlice(n.keys, lo, hi, a, b);
    SliceOfSlice(m.temp, lo, hi, a, b);
    SliceOfSlice(n.temp, lo, hi, a, b);
  }

  lemma SliceOfSlice(s: seq<Rec>, lo: nat, hi: nat, a: nat, b: nat)
    requires lo <= a <= b <= hi <= |s|
    ensures s[lo..hi][a - lo..b - lo] == s[a..b]
  {
    var x, y := s[lo..hi][a - lo..b - lo], s[a..b];
    assert forall i | 0 <= i < b - a :: x[i] == s[lo..hi][a - lo + i] == y[i];
  }

  // A patch within lo..hi of two sequences that agree there.
  lemma PatchAgrees(s: seq<Rec>, t: seq<Rec>, lo: nat, hi: nat, a: nat, r: seq<Rec>)
    requires |s| == |t| && lo <= a && a + |r| <= hi <= |s| && s[lo..hi] == t[lo..hi]
    ensures Patch(s, a, r)[lo..hi] == Patch(t, a, r)[lo..hi]
    ensures forall x | 0 <= x < |s| && !(lo <= x < hi) :: Patch(s, a, r)[x] == s[x]
  {
    hide Patch;
    PatchIs(s, a, r);
    PatchIs(t, a, r);
    forall x | lo <= x < hi ensures s[x] == t[x] { assert s[lo..hi][x - lo] == t[lo..hi][x - lo]; }
  }

  lemma TopLocal(m: Mem, n: Mem, f: Frame, lo: nat, hi: nat)
    requires Agree(m, n, lo, hi) && FrameOk(f, lo, hi)
    ensures FrameOk(f, 0, |m.keys|) && FinishTop(m, f)[lo..hi] == FinishTop(n, f)[lo..hi]
  {
    hide Patch;
    hide Merge;
    hide Sort;
    match f
    case SortCall(a, b) =>
      AgreeInside(m, n, lo, hi, a, b);
      PatchAgrees(m.keys, n.keys, lo, hi, a, Sort(m.keys[a..b]));
    case MergeCall(a, mid, b) =>
      AgreeInside(m, n, lo, hi, a, mid);
      AgreeInside(m, n, lo, hi, mid, b);
      PatchAgrees(m.keys, n.keys, lo, hi, a, Merge(m.keys[a..mid], m.keys[mid..b]));
    case Merging(a, mid, b, i, j) =>
      AgreeInside(m, n, lo, hi, a, i + (j - mid));
      AgreeInside(m, n, lo, hi, i, mid);
      AgreeInside(m, n, lo, hi, j, b);
      PatchAgrees(m.keys, n.keys, lo, hi, a, Merged(m, a, mid, b, i, j));
    case Copying(a, b, i) =>
      AgreeInside(m, n, lo, hi, i, b);
      PatchAgrees(m.keys, n.keys, lo, hi, i, m.temp[i..b]);
  }

  lemma {:induction false} FinishLocal(m: Mem, n: Mem, st: Stack, lo: nat, hi: nat)
    requires Agree(m, n, lo, hi) && StackOk(st, lo, hi)
    ensures StackOk(st, 0, |m.keys|) && Finish(m, st)[lo..hi] == Finish(n, st)[lo..hi]
    decreases |st|
  {
    hide FinishTop;
    if st != [] {
      TopLocal(m, n, st[0], lo, hi);
      FinishLocal(m.(keys := FinishTop(m, st[0])), n.(keys := FinishTop(n, st[0])), st[1..], lo, hi);
    }
  }

  // ---------------------------------------------------------------- all threads

  datatype Sys = Sys(mem: Mem, stacks: seq<Stack>)

  /** Thread t's next step; a thread that is done has none. */
  function Step(s: Sys, t: nat): Sys
    requires t < |s.stacks| && s.stacks[t] != [] && |s.mem.keys| == |s.mem.temp| && FrameOk(s.stacks[t][0], 0, |s.mem.keys|)
  {
    var (m1, st1) := StepThread(s.mem, s.stacks[t]);
    Sys(m1, s.stacks[t := st1])
  }

  /** Whatever has happened so far, thread t is about to leave the sort of what s held in its range. */
  ghost predicate OnCourse(s: seq<Rec>, y: Sys, t: nat)
    requires t < |y.stacks|
  {
    var lo, hi := StartOf(|s|, |y.stacks|, t), EndOf(|s|, |y.stacks|, t);
    && |y.mem.keys| == |y.mem.temp| == |s| && lo <= hi <= |s| && StackOk(y.stacks[t], lo, hi)
    && StackOk(y.stacks[t], 0, |s|) && Finish(y.mem, y.stacks[t])[lo..hi] == Sort(s[lo..hi])
  }

  ghost predicate AllOnCourse(s: seq<Rec>, y: Sys) {
    |y.stacks| >= 1 && forall t: nat | t < |y.stacks| :: OnCourse(s, y, t)
  }

  /** Every thread's calls are within the arrays. */
  ghost predicate SysOk(y: Sys) {
    |y.mem.keys| == |y.mem.temp| && forall t: nat | t < |y.stacks| :: StackOk(y.stacks[t], 0, |y.mem.keys|)
  }

  /** main's start of the threads. */
  function Begin(m: Mem, threads: nat): (y: Sys)
    requires threads >= 1 && |m.keys| == |m.temp|
    ensures SysOk(y)
  {
    forall t: nat | t < threads ensures StackOk([SortCall(StartOf(|m.keys|, threads, t), EndOf(|m.keys|, threads, t))], 0, |m.keys|) {
      Partition(|m.keys|, threads, t);
    }
    Sys(m, seq(threads, t requires 0 <= t < threads => [SortCall(StartOf(|m.keys|, threads, t), EndOf(|m.keys|, threads, t))]))
  }

  lemma BeginOnCourse(m: Mem, threads: nat)
    requires |m.keys| == |m.temp| && threads >= 1
    ensures AllOnCourse(m.keys, Begin(m, threads))
  {
    hide StartOf;
    hide EndOf;
    hide Sort;
    hide Patch;
    var y := Begin(m, threads);
    forall t: nat | t < threads ensures OnCourse(m.keys, y, t) {
      Partition(|m.keys|, threads, t);
      var lo, hi := StartOf(|m.keys|, threads, t), EndOf(|m.keys|, threads, t);
      OneFrame(m, SortCall(lo, hi));
      PatchIs(m.keys, lo, Sort(m.keys[lo..hi]));
    }
  }

  // Two threads' ranges do not meet.
  lemma Apart(n: nat, threads: nat, t: nat, u: nat, x: nat)
    requires threads >= 1 && t < threads && u < threads && t != u
    requires StartOf(n, threads, t) <= x < EndOf(n, threads, t)
    ensures !(StartOf(n, threads, u) <= x < EndOf(n, threads, u))
  {
    if t < u { Ascending(n, threads, t, u); } else { Ascending(n, threads, u, t); }
  }

  lemma StepOnCourse(s: seq<Rec>, y: Sys, t: nat)
    requires AllOnCourse(s, y) && t < |y.stacks| && y.stacks[t] != []
    ensures OnCourse(s, y, t) && AllOnCourse(s, Step(y, t))
  {
    hide StepTop;
    hide Finish;
    hide Sort;
    hide StartOf;
    hide EndOf;
    assert OnCourse(s, y, t);
    var lo, hi := StartOf(|s|, |y.stacks|, t), EndOf(|s|, |y.stacks|, t);
    StepFinish(y.mem, y.stacks[t]);
    TopStepFrames(y.mem, y.stacks[t][0], lo, hi);
    var y1 := Step(y, t);
    forall u: nat | u < |y.stacks| ensures OnCourse(s, y1, u) {
      assert OnCourse(s, y, u);
      if u != t {
        var a, b := StartOf(|s|, |y.stacks|, u), EndOf(|s|, |y.stacks|, u);
        forall x | a <= x < b ensures y1.mem.keys[x] == y.mem.keys[x] && y1.mem.temp[x] == y.mem.temp[x] { Apart(|s|, |y.stacks|, u, t, x); }
        FinishLocal(y.mem, y1.mem, y.stacks[u], a, b);
      }
    }
  }

  lemma StepOk(y: Sys, t: nat)
    requires SysOk(y) && t < |y.stacks| && y.stacks[t] != []
    ensures StackOk(y.stacks[t], 0, |y.mem.keys|) && SysOk(Step(y, t))
  {
    hide StepTop;
    hide Finish;
    StepFinish(y.mem, y.stacks[t]);
  }

  /** Threads taking turns in the order given; None if a thread that is done is to move. */
  ghost function Run(y: Sys, order: seq<nat>): (r: Option<Sys>)
    requires SysOk(y)
    ensures r.Some? ==> SysOk(r.value) && |r.value.stacks| == |y.stacks| && |r.value.mem.keys| == |y.mem.keys|
    decreases |order|
  {
    if order == [] then Some(y)
    else if order[0] >= |y.stacks| || y.stacks[order[0]] == [] then None
    else StepOk(y, order[0]); Run(Step(y, order[0]), order[1..])
  }

  lemma {:induction false} RunOnCourse(s: seq<Rec>, y: Sys, order: seq<nat>)
    requires SysOk(y) && AllOnCourse(s, y) && Run(y, order).Some?
    ensures AllOnCourse(s, Run(y, order).value)
    decreases |order|
  {
    hide Step;
    hide OnCourse;
    if order != [] {
      StepOnCourse(s, y, order[0]);
      StepOk(y, order[0]);
      RunOnCourse(s, Step(y, order[0]), order[1..]);
    }
  }

  predicate AllDone(y: Sys) { forall t: nat | t < |y.stacks| :: y.stacks[t] == [] }

  // ---------------------------------------------------------------- and they all do finish

  function SortCost(n: nat): nat { if n < 2 then 1 else 1 + SortCost(n / 2) + SortCost(n - n / 2) + (1 + MergeCost(n)) }

  function MergeCost(n: nat): nat { n + 1 + (n + 1) }

  /** The steps a call still takes. */
  function Cost(f: Frame): nat
    requires FrameOk(f, 0, f.hi)
  {
    match f
    case SortCall(lo, hi) => SortCost(hi - lo)
    case MergeCall(lo, _, hi) => 1 + MergeCost(hi - lo)
    case Merging(lo, mid, hi, i, j) => (mid - i) + (hi - j) + 1 + (hi - lo + 1)
    case Copying(lo, hi, i) => hi - i + 1
  }

  function CostOf(st: Stack): nat
    requires forall i | 0 <= i < |st| :: FrameOk(st[i], 0, st[i].hi)
  {
    if st == [] then 0 else Cost(st[0]) + CostOf(st[1..])
  }

  lemma {:induction false} CostBoth(a: Stack, b: Stack)
    requires (forall i | 0 <= i < |a| :: FrameOk(a[i], 0, a[i].hi)) && (forall i | 0 <= i < |b| :: FrameOk(b[i], 0, b[i].hi))
    ensures CostOf(a + b) == CostOf(a) + CostOf(b)
  {
    if a == [] {
      assert a + b == b;
    } else {
      assert (a + b)[1..] == a[1..] + b;
      CostBoth(a[1..], b);
    }
  }

  /** Every step of a thread brings it exactly one step nearer its end. */
  lemma StepCost(m: Mem, st: Stack)
    requires st != [] && |m.keys| == |m.temp| && StackOk(st, 0, |m.keys|)
    ensures var st1 := StepThread(m, st).1;
      && (forall i | 0 <= i < |st| :: FrameOk(st[i], 0, st[i].hi)) && (forall i | 0 <= i < |st1| :: FrameOk(st1[i], 0, st1[i].hi))
      && CostOf(st1) == CostOf(st) - 1
  {
    hide StepTop;
    hide Cost;
    TopStepFrames(m, st[0], 0, |m.keys|);
    TopCost(m, st[0]);
    CostBoth(StepTop(m, st[0]).1, st[1..]);
  }

  lemma TopCost(m: Mem, f: Frame)
    requires |m.keys| == |m.temp| && FrameOk(f, 0, |m.keys|)
    ensures var top := StepTop(m, f).1;
      (forall i | 0 <= i < |top| :: FrameOk(top[i], 0, top[i].hi)) && FrameOk(f, 0, f.hi) && CostOf(top) == Cost(f) - 1
  {
    hide SortCost;
    if f.SortCall? { SortCallCost(f.lo, f.hi); }
    else {
      var top := StepTop(m, f).1;
      if top != [] { assert top == [top[0]] && top[1..] == []; }
    }
  }

  // A call of merge_sort costs one step more than the three calls it turns into.
  lemma SortCallCost(lo: nat, hi: nat)
    requires lo <= hi
    ensures if hi - lo < 2 then SortCost(hi - lo) == 1 && CostOf([]) == 0
            else var mid := lo + (hi - lo) / 2;
              CostOf([SortCall(lo, mid), SortCall(mid, hi), MergeCall(lo, mid, hi)]) == SortCost(hi - lo) - 1
  {
    if hi - lo >= 2 {
      hide CostOf;
      hide SortCost;
      var n, mid := hi - lo, lo + (hi - lo) / 2;
      SortCostUnfolds(n);
      assert mid - lo == n / 2 && hi - mid == n - n / 2;
      CostThree(SortCall(lo, mid), SortCall(mid, hi), MergeCall(lo, mid, hi));
    }
  }

  lemma SortCostUnfolds(n: nat)
    requires n >= 2
    ensures SortCost(n) == 1 + SortCost(n / 2) + SortCost(n - n / 2) + (1 + MergeCost(n))
  {
  }

  lemma CostThree(a: Frame, b: Frame, c: Frame)
    requires FrameOk(a, 0, a.hi) && FrameOk(b, 0, b.hi) && FrameOk(c, 0, c.hi)
    ensures CostOf([a, b, c]) == Cost(a) + Cost(b) + Cost(c)
  {
    hide Cost;
    assert [a, b, c][1..] == [b, c] && [b, c][1..] == [c] && [c][1..] == [];
    assert CostOf([c]) == Cost(c);
    assert CostOf([b, c]) == Cost(b) + CostOf([c]);
  }

  /** The steps that all threads together still take. */
  ghost function TotalCost(y: Sys, n: nat): nat
    requires SysOk(y) && n <= |y.stacks|
  {
    if n == 0 then 0 else FramesOk(y, n - 1); TotalCost(y, n - 1) + CostOf(y.stacks[n - 1])
  }

  lemma FramesOk(y: Sys, t: nat)
    requires SysOk(y) && t < |y.stacks|
    ensures forall i | 0 <= i < |y.stacks[t]| :: FrameOk(y.stacks[t][i], 0, y.stacks[t][i].hi)
  {
    assert StackOk(y.stacks[t], 0, |y.mem.keys|);
  }

  lemma {:induction false} StepTotal(y: Sys, t: nat, n: nat)
    requires SysOk(y) && t < |y.stacks| && y.stacks[t] != [] && n <= |y.stacks|
    ensures StackOk(y.stacks[t], 0, |y.mem.keys|) && SysOk(Step(y, t))
    ensures TotalCost(Step(y, t), n) == TotalCost(y, n) - if t < n then 1 else 0
  {
    hide StepTop;
    hide CostOf;
    hide FrameOk;
    StepOk(y, t);
    if n > 0 {
      StepTotal(y, t, n - 1);
      FramesOk(y, n - 1);
      if t == n - 1 { StepCost(y.mem, y.stacks[t]); }
    }
  }

  lemma {:induction false} RunCost(y: Sys, order: seq<nat>)
    requires SysOk(y) && Run(y, order).Some?
    ensures var r := Run(y, order).value; TotalCost(r, |r.stacks|) + |order| == TotalCost(y, |y.stacks|)
    decreases |order|
  {
    hide Step;
    hide TotalCost;
    if order != [] {
      StepOk(y, order[0]);
      StepTotal(y, order[0], |y.stacks|);
      StepCount(y, order[0]);
      RunCost(Step(y, order[0]), order[1..]);
    }
  }

  lemma StepCount(y: Sys, t: nat)
    requires SysOk(y) && t < |y.stacks| && y.stacks[t] != []
    ensures StackOk(y.stacks[t], 0, |y.mem.keys|) && |Step(y, t).stacks| == |y.stacks|
  {
  }

  lemma {:induction false} NoCostIsDone(y: Sys, n: nat)
    requires SysOk(y) && n <= |y.stacks|
    ensures TotalCost(y, n) == 0 <==> forall t: nat | t < n :: y.stacks[t] == []
  {
    hide FrameOk;
    if n > 0 {
      NoCostIsDone(y, n - 1);
      FramesOk(y, n - 1);
      if y.stacks[n - 1] != [] { CostPositive(y.stacks[n - 1][0]); }
    }
  }

  lemma CostPositive(f: Frame)
    requires FrameOk(f, 0, f.hi)
    ensures Cost(f) >= 1
  {
    if f.SortCall? { assert SortCost(f.hi - f.lo) >= 1; }
  }

  /** For any number of records and of threads and any interleaving: all threads are done exactly
      after a number of steps fixed at the start, and then the final merges give the stable sort
      of the whole. */
  lemma AnyInterleavingSorts(m: Mem, threads: nat, order: seq<nat>)
    requires |m.keys| == |m.temp| && threads >= 1 && Run(Begin(m, threads), order).Some?
    ensures var y, steps := Run(Begin(m, threads), order).value, TotalCost(Begin(m, threads), threads);
      && |order| <= steps && (AllDone(y) <==> |order| == steps)
      && (AllDone(y) ==> FinalMerges(y.mem.keys, threads, threads) == Sort(m.keys))
      && (AllDone(y) ==> StableSort(m.keys, FinalMerges(y.mem.keys, threads, threads)))
  {
    hide Run;
    hide Sort;
    hide StartOf;
    hide EndOf;
    hide FinalMerges;
    hide StableSort;
    hide TotalCost;
    var y0 := Begin(m, threads);
    var y := Run(y0, order).value;
    BeginOnCourse(m, threads);
    RunOnCourse(m.keys, y0, order);
    RunCost(y0, order);
    NoCostIsDone(y, threads);
    if AllDone(y) {
      forall i: nat | i < threads ensures SortedPart(m.keys, y.mem.keys, threads, i) { assert OnCourse(m.keys, y, i); }
      FinalMergesSort(m.keys, y.mem.keys, threads);
      SortStable(m.keys);
    }
  }
}
