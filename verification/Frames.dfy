/** The frame allocator: `alloc_frame` scans the bytemap upwards from the first non-kernel
    frame in steps of two, `free_frame` releases only frames strictly above that frame. */
module Frames {
  import opened Layout

  /** The frames that the scan of `alloc_frame` visits. */
  predicate Visited(j: int) { NUM_PAG_KERNEL <= j < TOTAL_PAGES && j % 2 == 0 }

  /** Every frame the scan visits from `i` on is in use. */
  ghost predicate Full(phys: Phys, i: nat) { forall j :: i <= j && Visited(j) ==> phys[j] }

  /** The frame the scan of `alloc_frame` stops at, or -1. */
  function Scan(phys: Phys, i: nat): (f: int)
    requires NUM_PAG_KERNEL <= i <= TOTAL_PAGES && i % 2 == 0
    ensures f == -1 <==> Full(phys, i)
    ensures f != -1 ==> i <= f && Visited(f) && !phys[f] && forall j :: i <= j < f && Visited(j) ==> phys[j]
    decreases TOTAL_PAGES - i, phys  // a constant index alone then does not unfold the call to its end
  {
    if i == TOTAL_PAGES then -1 else if !phys[i] then i else Scan(phys, i + 2)
  }

  /** Sets the bytemap entries of `fs`, in order. */
  function Mark(phys: Phys, fs: seq<FrameNo>): Phys {
    if fs == [] then phys else Mark(phys, fs[..|fs| - 1])[fs[|fs| - 1] := true]
  }

  /** One more call after `fs` was handed out by `n` calls; a failed call ends the series. */
  function Extend(phys: Phys, fs: seq<FrameNo>, n: nat): (r: seq<FrameNo>)
    requires |fs| <= n
    ensures |r| <= n + 1
  {
    if |fs| < n then fs else
      var f := Scan(Mark(phys, fs), NUM_PAG_KERNEL);
      if f == -1 then fs else fs + [f]
  }

  /** The frames handed out by `n` successive calls, up to the first failing one. */
  function Allocated(phys: Phys, n: nat): (fs: seq<FrameNo>)
    ensures |fs| <= n
  {
    if n == 0 then [] else Extend(phys, Allocated(phys, n - 1), n - 1)
  }

  /** `free_frame`: the comparison with the first non-kernel frame is strict. */
  function Free(phys: Phys, f: FrameNo): Phys {
    if f > NUM_PAG_KERNEL then phys[f := false] else phys
  }

  function Release(phys: Phys, fs: seq<FrameNo>): Phys {
    if fs == [] then phys else Free(Release(phys, fs[..|fs| - 1]), fs[|fs| - 1])
  }

  lemma {:induction false} MarkAt(phys: Phys, fs: seq<FrameNo>, f: FrameNo)
    ensures Mark(phys, fs)[f] == (phys[f] || f in fs)
  {
    if fs != [] {
      MarkAt(phys, fs[..|fs| - 1], f);
      assert fs == fs[..|fs| - 1] + [fs[|fs| - 1]];
    }
  }

  lemma {:induction false} ReleaseAt(phys: Phys, fs: seq<FrameNo>, f: FrameNo)
    ensures Release(phys, fs)[f] == (phys[f] && !(f in fs && f > NUM_PAG_KERNEL))
  {
    if fs != [] {
      ReleaseAt(phys, fs[..|fs| - 1], f);
      assert fs == fs[..|fs| - 1] + [fs[|fs| - 1]];
    }
  }

  /** `fs` are pairwise distinct frames of the scan that were free, `n` of them unless the
      scan ran dry. */
  ghost predicate Fresh(phys: Phys, fs: seq<FrameNo>, n: nat) {
    && |fs| <= n
    && Distinct(fs)
    && (forall i :: 0 <= i < |fs| ==> Visited(fs[i]) && !phys[fs[i]])
    && (|fs| < n ==> Full(Mark(phys, fs), NUM_PAG_KERNEL))
  }

  lemma ExtendFresh(phys: Phys, fs: seq<FrameNo>, n: nat)
    requires Fresh(phys, fs, n)
    ensures Fresh(phys, Extend(phys, fs, n), n + 1)
  {
    var f := Scan(Mark(phys, fs), NUM_PAG_KERNEL);
    if |fs| == n && f != -1 {
      MarkAt(phys, fs, f);
    }
  }

  /** Allocation hands out pairwise distinct even frames above the kernel that were free, and
      comes up short only when no reachable frame is left. */
  lemma {:induction false} AllocatedFresh(phys: Phys, n: nat)
    ensures Fresh(phys, Allocated(phys, n), n)
  {
    if n > 0 {
      AllocatedFresh(phys, n - 1);
      ExtendFresh(phys, Allocated(phys, n - 1), n - 1);
    }
  }

  lemma {:induction false} AllocatedPrefix(phys: Phys, m: nat, n: nat)
    requires m <= n
    ensures var fs := Allocated(phys, n); Allocated(phys, m) == if |fs| <= m then fs else fs[..m]
    decreases n
  {
    if m < n {
      AllocatedPrefix(phys, m, n - 1);
      ExtendKeepsPrefix(phys, Allocated(phys, n - 1), m, n - 1);
    }
  }

  lemma ExtendKeepsPrefix(phys: Phys, gs: seq<FrameNo>, m: nat, n: nat)
    requires |gs| <= n && m <= n
    ensures var fs := Extend(phys, gs, n);
      (if |gs| <= m then gs else gs[..m]) == if |fs| <= m then fs else fs[..m]
  {
  }

  /** A series of allocations that has ended stays as it is. */
  lemma AllocatedEnds(phys: Phys, m: nat, n: nat)
    requires m < n && |Allocated(phys, m)| == m && |Allocated(phys, m + 1)| == m
    ensures Allocated(phys, m + 1) == Allocated(phys, m) == Allocated(phys, n)
  {
    AllocatedPrefix(phys, m, m + 1);
    AllocatedPrefix(phys, m + 1, n);
  }

  /** Number of used frames from `i` up. */
  function UsedFrom(phys: Phys, i: nat): nat
    requires i <= TOTAL_PAGES
    decreases TOTAL_PAGES - i, phys  // a constant index alone then does not unfold the call to its end
  {
    if i == TOTAL_PAGES then 0 else (if phys[i] then 1 else 0) + UsedFrom(phys, i + 1)
  }

  lemma {:induction false} UsedFromUpdate(phys: Phys, i: nat, f: FrameNo, v: bool)
    requires i <= TOTAL_PAGES
    ensures UsedFrom(phys[f := v], i) ==
            UsedFrom(phys, i) + if f < i || phys[f] == v then 0 else if v then 1 else -1
    decreases TOTAL_PAGES - i
  {
    if i < TOTAL_PAGES {
      UsedFromUpdate(phys, i + 1, f, v);
    }
  }

  lemma {:induction false} MarkCount(phys: Phys, fs: seq<FrameNo>)
    requires Distinct(fs)
    requires forall i :: 0 <= i < |fs| ==> fs[i] >= NUM_PAG_KERNEL && !phys[fs[i]]
    ensures UsedFrom(Mark(phys, fs), NUM_PAG_KERNEL) == UsedFrom(phys, NUM_PAG_KERNEL) + |fs|
  {
    if fs != [] {
      var n := |fs| - 1;
      MarkCount(phys, fs[..n]);
      MarkAt(phys, fs[..n], fs[n]);
      UsedFromUpdate(Mark(phys, fs[..n]), NUM_PAG_KERNEL, fs[n], true);
    }
  }

  lemma {:induction false} ReleaseCount(phys: Phys, fs: seq<FrameNo>)
    requires Distinct(fs)
    requires forall i :: 0 <= i < |fs| ==> fs[i] > NUM_PAG_KERNEL && phys[fs[i]]
    ensures UsedFrom(Release(phys, fs), NUM_PAG_KERNEL) == UsedFrom(phys, NUM_PAG_KERNEL) - |fs|
  {
    if fs != [] {
      var n := |fs| - 1;
      ReleaseCount(phys, fs[..n]);
      ReleaseAt(phys, fs[..n], fs[n]);
      UsedFromUpdate(Release(phys, fs[..n]), NUM_PAG_KERNEL, fs[n], false);
    }
  }

  /** The step-two scan reaches 384 frames; when it fails, that many are in use. */
  lemma {:induction false} FullCount(phys: Phys, i: nat)
    requires NUM_PAG_KERNEL <= i <= TOTAL_PAGES && i % 2 == 0
    requires Full(phys, i)
    ensures 2 * UsedFrom(phys, i) >= TOTAL_PAGES - i
    decreases TOTAL_PAGES - i
  {
    if i < TOTAL_PAGES {
      FullCount(phys, i + 2);
      assert UsedFrom(phys, i) >= 1 + UsedFrom(phys, i + 1);
      assert UsedFrom(phys, i + 1) >= UsedFrom(phys, i + 2);
    }
  }

  /** While at most 384 - n frames above the kernel are in use, n allocations succeed. */
  lemma AllocationSucceeds(phys: Phys, n: nat)
    requires UsedFrom(phys, NUM_PAG_KERNEL) + n <= (TOTAL_PAGES - NUM_PAG_KERNEL) / 2
    ensures |Allocated(phys, n)| == n
  {
    AllocatedFresh(phys, n);
    var fs := Allocated(phys, n);
    if |fs| < n {
      MarkCount(phys, fs);
      FullCount(Mark(phys, fs), NUM_PAG_KERNEL);
    }
  }

  lemma ReleasedAt(phys: Phys, n: nat, f: FrameNo)
    ensures var fs := Allocated(phys, n);
      Release(Mark(phys, fs), fs)[f] <==> phys[f] || (f in fs && f <= NUM_PAG_KERNEL)
  {
    var fs := Allocated(phys, n);
    AllocatedFresh(phys, n);
    MarkAt(phys, fs, f);
    ReleaseAt(Mark(phys, fs), fs, f);
  }

  /** Releasing the frames of an allocation restores the bytemap exactly when the frame that
      `free_frame` refuses to release was not among them: it was in use before, or nothing was
      allocated. */
  lemma {:induction false} ReleaseUndoesAllocation(phys: Phys, n: nat)
    ensures Release(Mark(phys, Allocated(phys, n)), Allocated(phys, n)) == phys
            <==> phys[NUM_PAG_KERNEL] || n == 0
  {
    var fs := Allocated(phys, n);
    if phys[NUM_PAG_KERNEL] || n == 0 {
      AllocatedFresh(phys, n);
      forall f: FrameNo ensures Release(Mark(phys, fs), fs)[f] == phys[f] {
        ReleasedAt(phys, n, f);
      }
    } else {
      FirstAllocated(phys, n);
      ReleasedAt(phys, n, NUM_PAG_KERNEL);
    }
  }

  /** A free frame 256 is the first one handed out. */
  lemma {:induction false} FirstAllocated(phys: Phys, n: nat)
    requires !phys[NUM_PAG_KERNEL] && n > 0
    ensures NUM_PAG_KERNEL in Allocated(phys, n)
  {
    if n == 1 {
      assert Allocated(phys, 0) == [];
      assert Scan(phys, NUM_PAG_KERNEL) == NUM_PAG_KERNEL;
    } else {
      FirstAllocated(phys, n - 1);
    }
  }
}
