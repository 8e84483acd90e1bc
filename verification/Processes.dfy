/** What processes may rely on: fork copies memory, memory is private, frames never run out
    under a fork, process identifiers name one process, tick counts add up. */
module Processes {
  import opened Layout
  import opened Frames
  import opened Machine
  import opened Invariant
  import opened Startup

  /** The byte that slot `i` reads at an offset of a page through its own page table. */
  function Reads(s: State, i: Slot, p: FrameNo, off: int): Byte
    requires 0 <= off < PAGE_SIZE
  {
    s.mem[s.tables[i][p].frame][off]
  }

  ghost predicate SameView(s: State, r: State, i: Slot) {
    forall p: FrameNo, off :: 0 <= off < PAGE_SIZE ==> Reads(r, i, p, off) == Reads(s, i, p, off)
  }

  predicate IsLive(s: State, i: Slot) { Live(s.free, s.idle, i) }

  // ----- capacity

  /** Used frames above the kernel number 8 + 20 for each live process, at most 188 of the 384
      that the scan reaches, and frame 256 never becomes free. */
  lemma FramesInUse(s: State)
    requires Reachable(s)
    ensures UsedFrom(s.phys, NUM_PAG_KERNEL) == NUM_PAG_CODE + NUM_PAG_DATA * LiveCount(s) <= 188
    ensures LiveCount(s) == NR_TASKS - 1 - |s.free|
    ensures s.phys[NUM_PAG_KERNEL]
  {
    ReachableInv(s);
    assert IsCode(NUM_PAG_KERNEL);
  }

  /** A fork fails only for want of a process slot, never for want of a frame. */
  lemma ForkNeverLacksFrames(s: State, t1: Word, t2: Word)
    requires Reachable(s)
    ensures var (r, code) := Fork(s, t1, t2);
      code != -EAGAIN && (code == -ENOMEM <==> s.free == []) && (s.free != [] ==> code == s.lastPid + 1 > FIRST_PID)
  {
    ReachableInv(s);
    if s.free != [] {
      ForkHasRoom(s);
    }
  }

  // ----- fork

  /** Every frame that a page table names, mapped or not, is in use. */
  lemma NamedFramesInUse(s: State, i: Slot, p: FrameNo)
    requires Core(s) && IsLive(s, i)
    ensures s.phys[s.tables[i][p].frame]
  {
    if PAG_LOG_INIT_CODE <= p < PAG_LOG_INIT_DATA {
      assert s.tables[i][p].frame == CodeFrame(p - PAG_LOG_INIT_CODE);
    } else if PAG_LOG_INIT_DATA <= p < FIRST_TEMP {
      assert s.tables[i][p].frame == DataFrame(s.tables, i, p - PAG_LOG_INIT_DATA);
      assert Owned(s.free, s.idle, s.tables, s.tables[i][p].frame);
    }
  }

  /** Slot `c` reads in `r` on each data page what slot `i` reads in `s`. */
  ghost predicate SameData(s: State, i: Slot, r: State, c: Slot) {
    forall p: FrameNo, off :: PAG_LOG_INIT_DATA <= p < FIRST_TEMP && 0 <= off < PAGE_SIZE ==>
      Reads(r, c, p, off) == Reads(s, i, p, off)
  }

  lemma ChildReadsParentData(s: State, fs: seq<FrameNo>, t1: Word, t2: Word)
    requires Core(s) && s.current != s.idle && s.free != []
    requires Fresh(s.phys, fs, NUM_PAG_DATA) && |fs| == NUM_PAG_DATA
    ensures var c := s.free[0]; SameData(s, s.current, ForkChild(s, c, fs, t1, t2), c)
  {
    var c := s.free[0];
    var r := ForkChild(s, c, fs, t1, t2);
    var src := DataFrames(s.tables[s.current]);
    ChildTable(s.tables[c], s.tables[s.current], fs);
    forall p: FrameNo, off | PAG_LOG_INIT_DATA <= p < FIRST_TEMP && 0 <= off < PAGE_SIZE
      ensures Reads(r, c, p, off) == Reads(s, s.current, p, off)
    {
      CopyPagesAt(s.mem, src, fs, fs[p - PAG_LOG_INIT_DATA]);
    }
  }

  lemma OthersKeepTheirView(s: State, fs: seq<FrameNo>, t1: Word, t2: Word, i: Slot)
    requires Core(s) && s.current != s.idle && s.free != [] && IsLive(s, i)
    requires Fresh(s.phys, fs, NUM_PAG_DATA) && |fs| == NUM_PAG_DATA
    ensures var r := ForkChild(s, s.free[0], fs, t1, t2); r.tables[i] == s.tables[i] && SameView(s, r, i)
  {
    var r := ForkChild(s, s.free[0], fs, t1, t2);
    forall p: FrameNo, off | 0 <= off < PAGE_SIZE ensures Reads(r, i, p, off) == Reads(s, i, p, off) {
      NamedFramesInUse(s, i, p);
      CopyPagesAt(s.mem, DataFrames(s.tables[s.current]), fs, s.tables[i][p].frame);
    }
  }

  /** A successful fork is a true copy: each byte of the child's data pages is the parent's, the
      kernel and code pages name the parent's frames, and nobody who was alive, the parent
      included, has a page table or reads a byte other than before. */
  lemma ForkCopies(s: State, t1: Word, t2: Word)
    requires Inv(s) && s.current != s.idle && s.free != []
    ensures var (r, pid) := Fork(s, t1, t2); var c := s.free[0];
      && IsLive(r, c) && r.ready == s.ready + [c] && r.tasks[c].pid == pid && r.current == s.current
      && SameData(s, s.current, r, c)
      && (forall p :: 0 <= p < PAG_LOG_INIT_DATA ==> r.tables[c][p] == Mapped(s.tables[s.current][p].frame))
      && (forall p :: FIRST_TEMP <= p < TOTAL_PAGES ==> r.tables[s.current][p] == EMPTY)
      && (forall i: Slot :: IsLive(s, i) ==> IsLive(r, i) && r.tables[i] == s.tables[i] && SameView(s, r, i))
  {
    var c := s.free[0];
    var fs := Allocated(s.phys, NUM_PAG_DATA);
    ForkHasRoom(s);
    AllocatedFresh(s.phys, NUM_PAG_DATA);
    Pop(s.free);
    ChildTable(s.tables[c], s.tables[s.current], fs);
    ChildReadsParentData(s, fs, t1, t2);
    forall i: Slot | IsLive(s, i) {
      OthersKeepTheirView(s, fs, t1, t2, i);
    }
  }

  /** A fork for which some frame is missing, at whichever allocation and in whatever state, gives
      back memory, every other page table and block, the ready queue and the PID counter as they
      were, and the free queue with its head moved to its tail; the head still carries the parent's
      process identifier. The bytemap is as before if and only if frame 256 was in use. */
  lemma FailedForkRollsBack(s: State, t1: Word, t2: Word)
    requires Fork(s, t1, t2).1 == -EAGAIN && s.lastPid >= FIRST_PID
    ensures s.free != [] && |Allocated(s.phys, NUM_PAG_DATA)| < NUM_PAG_DATA
    ensures var r := Fork(s, t1, t2).0; var c := s.free[0];
      && (r.phys == s.phys <==> s.phys[NUM_PAG_KERNEL])
      && r.mem == s.mem && r.ready == s.ready && r.lastPid == s.lastPid
      && r.current == s.current && r.remaining == s.remaining && r.cr3 == s.cr3 && r.tlb == s.tlb
      && r.idle == s.idle && r.tss == s.tss && r.msr == s.msr && r.structures == s.structures
      && r.free == s.free[1..] + [c] && r.tasks[c].pid == s.tasks[s.current].pid
      && (forall i: Slot :: i != c ==>
            r.tables[i] == s.tables[i] && r.tasks[i] == s.tasks[i] && r.start[i] == s.start[i])
      && (forall p: FrameNo :: r.tables[c][p] ==
            if 264 <= p < 264 + |Allocated(s.phys, 20)| then Pte(0, false, false, false) else s.tables[c][p])
  {
    ReleaseUndoesAllocation(s.phys, NUM_PAG_DATA);
  }

  /** With the structural invariant frame 256 is in use, however scarce frames are, so a failed
      fork restores the bytemap and every page table, and keeps the invariant. */
  lemma FailedForkLosesNothing(s: State, t1: Word, t2: Word)
    requires Core(s) && s.current != s.idle && Fork(s, t1, t2).1 == -EAGAIN && s.lastPid >= FIRST_PID
    ensures var r := Fork(s, t1, t2).0; Core(r) && r.phys == s.phys && r.tables == s.tables
  {
    FailedForkRollsBack(s, t1, t2);
    ForkKeepsCore(s, t1, t2);
    assert Needed(s.free, s.idle, s.tables, NUM_PAG_KERNEL);
    var c, n := s.free[0], |Allocated(s.phys, NUM_PAG_DATA)|;
    assert c in s.free && ClearData(s.tables[c], n) == s.tables[c];
    assert Fork(s, t1, t2).0.tables == s.tables;
  }

  const FIRST_SPARE := 312

  /** Of the frames that the scan visits only the first `k` after those taken at boot are free. */
  ghost predicate Scarce(phys: Phys, k: nat) {
    forall f: FrameNo :: !phys[f] <==> FIRST_SPARE <= f < FIRST_SPARE + 2 * k && f % 2 == 0
  }

  ghost predicate Spares(fs: seq<FrameNo>, n: nat) {
    |fs| == n && forall i :: 0 <= i < n ==> fs[i] == FIRST_SPARE + 2 * i
  }

  lemma ScarceMarked(phys: Phys, k: nat, fs: seq<FrameNo>, n: nat, f: FrameNo)
    requires Scarce(phys, k) && n <= k && Spares(fs, n)
    ensures !Mark(phys, fs)[f] <==> FIRST_SPARE + 2 * n <= f < FIRST_SPARE + 2 * k && f % 2 == 0
  {
    MarkAt(phys, fs, f);
    if FIRST_SPARE <= f < FIRST_SPARE + 2 * n && f % 2 == 0 {
      assert fs[(f - FIRST_SPARE) / 2] == f;
    }
  }

  lemma ScarceScan(phys: Phys, k: nat, fs: seq<FrameNo>, n: nat)
    requires k <= NUM_PAG_DATA && Scarce(phys, k) && n < k && Spares(fs, n)
    ensures Scan(Mark(phys, fs), NUM_PAG_KERNEL) == FIRST_SPARE + 2 * n
  {
    var f := Scan(Mark(phys, fs), NUM_PAG_KERNEL);
    var g := FIRST_SPARE + 2 * n;
    ScarceMarked(phys, k, fs, n, g);
    assert Visited(g);
    ScarceMarked(phys, k, fs, n, f);
  }

  lemma ScarceScanFails(phys: Phys, k: nat, fs: seq<FrameNo>)
    requires k <= NUM_PAG_DATA && Scarce(phys, k) && Spares(fs, k)
    ensures Scan(Mark(phys, fs), NUM_PAG_KERNEL) == -1
  {
    var f := Scan(Mark(phys, fs), NUM_PAG_KERNEL);
    if f != -1 {
      ScarceMarked(phys, k, fs, k, f);
    }
  }

  lemma ScarceNext(phys: Phys, k: nat, fs: seq<FrameNo>, n: nat)
    requires k <= NUM_PAG_DATA && Scarce(phys, k) && n < k && Spares(fs, n)
    ensures Spares(Extend(phys, fs, n), n + 1)
  {
    ScarceScan(phys, k, fs, n);
  }

  lemma {:induction false} ScarceSeries(phys: Phys, k: nat, n: nat, fs: seq<FrameNo>)
    requires k <= NUM_PAG_DATA && Scarce(phys, k) && n <= k && fs == Allocated(phys, n)
    ensures Spares(fs, n)
  {
    if n > 0 {
      ScarceSeries(phys, k, n - 1, Allocated(phys, n - 1));
      ScarceNext(phys, k, Allocated(phys, n - 1), n - 1);
    }
  }

  lemma ScarceAllocation(phys: Phys, k: nat, n: nat)
    requires k <= NUM_PAG_DATA && Scarce(phys, k) && k < n
    ensures |Allocated(phys, n)| == k
  {
    ScarceSeries(phys, k, k, Allocated(phys, k));
    ScarceScanFails(phys, k, Allocated(phys, k));
    assert Allocated(phys, k + 1) == Extend(phys, Allocated(phys, k), k);
    AllocatedEnds(phys, k, n);
  }

  function ScarcePhys(k: nat): (phys: Phys)
    requires k <= NUM_PAG_DATA
    ensures Scarce(phys, k)
  {
    seq(TOTAL_PAGES, f => !(FIRST_SPARE <= f < FIRST_SPARE + 2 * k && f % 2 == 0))
  }

  /** Such failures exist at every one of the twenty allocations: with `k` spare frames left after
      boot the structural invariant holds and it is the allocation after `k` that fails. */
  lemma ForkCanFailAnywhere(b: Params, k: nat)
    requires b.Valid() && k < NUM_PAG_DATA
    ensures var s := Boot(b).(phys := ScarcePhys(k));
      Core(s) && s.current != s.idle && |Allocated(s.phys, NUM_PAG_DATA)| == k && Fork(s, 0, 0).1 == -EAGAIN
  {
    var phys := ScarcePhys(k);
    ScarceAllocation(phys, k, NUM_PAG_DATA);
    BootAllocation(KernelPhys(), BOOT_FRAMES);
    BootInv(b);
    BootLive();
    BootMappings(b.guard, Allocated(KernelPhys(), BOOT_FRAMES));
  }

  // ----- privacy

  /** All live processes have the same frames behind their kernel and code pages. */
  lemma LowPagesShared(s: State, i: Slot, j: Slot, page: FrameNo)
    requires Core(s) && IsLive(s, i) && IsLive(s, j) && page < PAG_LOG_INIT_DATA
    ensures s.tables[i][page].frame == s.tables[j][page].frame
  {
    if PAG_LOG_INIT_CODE <= page {
      assert s.tables[i][page].frame == CodeFrame(page - PAG_LOG_INIT_CODE) == s.tables[j][page].frame;
    }
  }

  /** A store reaches the storing process's own view, and what another live process's page table
      leads to changes exactly when the page is one of the shared kernel and code pages and the byte
      is a new one. */
  lemma StoreIsPrivate(s: State, page: FrameNo, off: int, b: Byte, j: Slot)
    requires Inv(s) && Enabled(s, Storing(page, off, b)) && IsLive(s, j) && j != s.current
    ensures var r := Next(s, Storing(page, off, b));
      && Reads(r, s.current, page, off) == b
      && (page < PAG_LOG_INIT_DATA ==> Reads(r, j, page, off) == b)
      && (SameView(s, r, j) <==> page >= PAG_LOG_INIT_DATA || Reads(s, s.current, page, off) == b)
  {
    var r := Next(s, Storing(page, off, b));
    var f := s.tables[s.current][page].frame;
    assert Translate(s, page) == s.tables[s.current][page];
    assert IsLive(s, s.current);
    if page >= PAG_LOG_INIT_DATA {
      assert s.tables[s.current][page] != EMPTY;
      var k := page - PAG_LOG_INIT_DATA;
      forall p: FrameNo ensures s.tables[j][p].frame != f {
        DataFrameIsPrivate(s, s.current, k, j, p);
      }
    } else {
      LowPagesShared(s, s.current, j, page);
      assert Reads(r, j, page, off) == b && Reads(s, j, page, off) == Reads(s, s.current, page, off);
    }
  }

  /** The same for the pages that the other process has present. */
  ghost predicate SeesSame(s: State, r: State, j: Slot) {
    forall p: FrameNo, off ::
      s.tables[j][p].present && 0 <= off < PAGE_SIZE ==> Reads(r, j, p, off) == Reads(s, j, p, off)
  }

  /** A present page other than `page` does not lead to a kernel frame of that number. */
  lemma KernelFrameHasOnePage(s: State, j: Slot, page: FrameNo, p: FrameNo)
    requires Core(s) && IsLive(s, j) && page < NUM_PAG_KERNEL && p != page && s.tables[j][p].present
    ensures s.tables[j][p].frame != page
  {
    if PAG_LOG_INIT_CODE <= p < PAG_LOG_INIT_DATA {
      assert s.tables[j][p].frame == CodeFrame(p - PAG_LOG_INIT_CODE);
    } else if PAG_LOG_INIT_DATA <= p < FIRST_TEMP {
      assert s.tables[j][p].frame == DataFrame(s.tables, j, p - PAG_LOG_INIT_DATA);
    }
  }

  /** Another live process sees a store exactly when the page is a kernel or code page that it has
      present as well, and the byte is a new one. */
  lemma StoreIsSeen(s: State, page: FrameNo, off: int, b: Byte, j: Slot)
    requires Inv(s) && Enabled(s, Storing(page, off, b)) && IsLive(s, j) && j != s.current
    ensures SeesSame(s, Next(s, Storing(page, off, b)), j)
            <==> page >= PAG_LOG_INIT_DATA || Reads(s, s.current, page, off) == b || !s.tables[j][page].present
  {
    var r := Next(s, Storing(page, off, b));
    StoreIsPrivate(s, page, off, b, j);
    if page < PAG_LOG_INIT_DATA {
      assert IsLive(s, s.current);
      LowPagesShared(s, s.current, j, page);
      if !s.tables[j][page].present {
        assert Translate(s, page) == s.tables[s.current][page] && page < NUM_PAG_KERNEL;
        forall p: FrameNo | s.tables[j][p].present ensures s.tables[j][p].frame != page {
          KernelFrameHasOnePage(s, j, page, p);
        }
      } else {
        assert Reads(r, j, page, off) == b && Reads(s, j, page, off) == Reads(s, s.current, page, off);
      }
    }
  }

  lemma DataFrameIsPrivate(s: State, i: Slot, k: int, j: Slot, p: FrameNo)
    requires Core(s) && IsLive(s, i) && IsLive(s, j) && 0 <= k < NUM_PAG_DATA
    requires j != i || p != PAG_LOG_INIT_DATA + k
    ensures s.tables[j][p].frame != DataFrame(s.tables, i, k)
  {
    if PAG_LOG_INIT_CODE <= p < PAG_LOG_INIT_DATA {
      assert s.tables[j][p].frame == CodeFrame(p - PAG_LOG_INIT_CODE);
    } else if PAG_LOG_INIT_DATA <= p < FIRST_TEMP {
      assert s.tables[j][p].frame == DataFrame(s.tables, j, p - PAG_LOG_INIT_DATA);
    }
  }

  /** Privacy of whole address spaces fails for a parent whose only child runs next: the child
      may store to a code page, because `set_ss_pag` makes every page it maps writable, and the
      parent then reads the new byte. */
  lemma ChildStoresToSharedCode(s: State, v: Byte)
    requires Inv(s) && s.current != s.idle && s.free != [] && s.ready == []
    ensures var r := Next(Next(s, Forking(0, 0)), Yielding(0, 0, 0)); var e := Storing(PAG_LOG_INIT_CODE, 0, v);
      && r.current == s.free[0] != s.current && IsLive(r, s.current)
      && Enabled(r, e) && Reads(Next(r, e), s.current, PAG_LOG_INIT_CODE, 0) == v
  {
    ChildRunsNext(s);
    var r := Next(Next(s, Forking(0, 0)), Yielding(0, 0, 0));
    assert Translate(r, PAG_LOG_INIT_CODE) == r.tables[r.current][PAG_LOG_INIT_CODE];
    StoreIsPrivate(r, PAG_LOG_INIT_CODE, 0, v, s.current);
  }

  lemma ChildRunsNext(s: State)
    requires Inv(s) && s.current != s.idle && s.free != [] && s.ready == []
    ensures var r := Next(Next(s, Forking(0, 0)), Yielding(0, 0, 0));
      && Inv(r) && r.current == s.free[0] != s.current && r.current != r.idle && IsLive(r, s.current)
      && (forall p :: 0 <= p < PAG_LOG_INIT_DATA ==> r.tables[r.current][p] == Mapped(s.tables[s.current][p].frame))
  {
    ForkCopies(s, 0, 0);
    NextKeepsInv(s, Forking(0, 0));
    NextKeepsInv(Next(s, Forking(0, 0)), Yielding(0, 0, 0));
    assert IsLive(s, s.current);
    OnlyOtherRunsNext(Next(s, Forking(0, 0)), s.free[0]);
  }

  lemma OnlyOtherRunsNext(s: State, c: Slot)
    requires Core(s) && s.current != s.idle && s.ready == [c]
    ensures var r := Next(s, Yielding(0, 0, 0));
      && r.current == c != s.current && r.current != r.idle && IsLive(r, s.current)
      && r.tables == s.tables
  {
    YieldRotates(s, 0, 0, 0);
    assert c in s.ready;
  }

  /** The first process after boot is such a parent. */
  lemma FirstProcessSharesItsCode(b: Params, v: Byte)
    requires b.Valid()
    ensures var r := Next(Next(Boot(b), Forking(0, 0)), Yielding(0, 0, 0)); var e := Storing(PAG_LOG_INIT_CODE, 0, v);
      IsLive(r, 1) && Enabled(r, e) && Reads(Next(r, e), 1, PAG_LOG_INIT_CODE, 0) == v
  {
    BootInv(b);
    ChildStoresToSharedCode(Boot(b), v);
  }

  // ----- copies into the caller's buffer

  /** Which byte an address is. */
  lemma AddressOf(a: int, p: FrameNo, off: int)
    requires 0 <= off < PAGE_SIZE
    ensures a == p * PAGE_SIZE + off <==> a / PAGE_SIZE == p && a % PAGE_SIZE == off
  {
  }

  /** Two pages of live processes lead to the same frame, one of them being a code or data page, only
      if they are the same code page or the same page of the same process. */
  lemma SameFrame(s: State, i: Slot, page: FrameNo, q: Slot, p: FrameNo)
    requires Core(s) && IsLive(s, i) && IsLive(s, q) && PAG_LOG_INIT_CODE <= page < FIRST_TEMP
    ensures s.tables[q][p].frame == s.tables[i][page].frame <==> p == page && (q == i || page < PAG_LOG_INIT_DATA)
  {
    if page >= PAG_LOG_INIT_DATA {
      if q != i || p != page {
        DataFrameIsPrivate(s, i, page - PAG_LOG_INIT_DATA, q, p);
      }
    } else {
      assert s.tables[i][page].frame == CodeFrame(page - PAG_LOG_INIT_CODE);
      if PAG_LOG_INIT_DATA <= p < FIRST_TEMP {
        assert s.tables[q][p].frame == DataFrame(s.tables, q, p - PAG_LOG_INIT_DATA);
      }
    }
  }

  lemma StoreReads(s: State, page: FrameNo, o: int, b: Byte, q: Slot, p: FrameNo, off: int)
    requires Core(s) && s.current != s.idle && IsLive(s, q)
    requires PAG_LOG_INIT_CODE <= page < FIRST_TEMP && 0 <= o < PAGE_SIZE && 0 <= off < PAGE_SIZE
    ensures Reads(Store(s, page, o, b), q, p, off)
         == if p == page && off == o && (q == s.current || p < PAG_LOG_INIT_DATA) then b else Reads(s, q, p, off)
  {
    SameFrame(s, s.current, page, q, p);
  }

  lemma ByteReads(s: State, a: nat, b: Byte, q: Slot, p: FrameNo, off: int)
    requires Core(s) && s.current != s.idle && IsLive(s, q) && 0 <= off < PAGE_SIZE && InUserPages(a, 1)
    ensures Reads(Store(s, a / PAGE_SIZE, a % PAGE_SIZE, b), q, p, off)
         == if p * PAGE_SIZE + off == a && (q == s.current || p < PAG_LOG_INIT_DATA) then b else Reads(s, q, p, off)
  {
    AddressOf(a, p, off);
    StoreReads(s, a / PAGE_SIZE, a % PAGE_SIZE, b, q, p, off);
  }

  lemma CopyOutCore(s: State, addr: nat, bs: seq<Byte>)
    requires Core(s) && s.current != s.idle && InUserPages(addr, |bs|)
    ensures var r := CopyOut(s, addr, bs);
      Core(r) && r.tables == s.tables && r.current == s.current && r.idle == s.idle && r.free == s.free
  {
    CopyOutShape(s, addr, bs);
    CopyOutTlb(s, addr, bs);
  }

  function AfterCopy(s: State, addr: nat, bs: seq<Byte>, q: Slot, p: FrameNo, off: int): Byte
    requires 0 <= off < PAGE_SIZE
  {
    var k := p * PAGE_SIZE + off - addr;
    if 0 <= k < |bs| && (q == s.current || p < PAG_LOG_INIT_DATA) then bs[k] else Reads(s, q, p, off)
  }

  /** What every live process reads after the kernel copied bytes into the buffer of the running one:
      the new bytes in the caller, the new bytes of code pages in everybody, otherwise the old ones. */
  lemma {:induction false} CopyReads(s: State, addr: nat, bs: seq<Byte>, q: Slot, p: FrameNo, off: int)
    requires Core(s) && s.current != s.idle && InUserPages(addr, |bs|) && IsLive(s, q) && 0 <= off < PAGE_SIZE
    ensures Reads(CopyOut(s, addr, bs), q, p, off) == AfterCopy(s, addr, bs, q, p, off)
    decreases |bs|
  {
    if bs != [] {
      var n := |bs| - 1;
      CopyReads(s, addr, bs[..n], q, p, off);
      CopyOutCore(s, addr, bs[..n]);
      OneMoreByte(s, CopyOut(s, addr, bs[..n]), addr, bs, q, p, off);
    }
  }

  lemma OneMoreByte(s: State, r: State, addr: nat, bs: seq<Byte>, q: Slot, p: FrameNo, off: int)
    requires bs != [] && InUserPages(addr, |bs|) && 0 <= off < PAGE_SIZE
    requires Core(r) && r.current == s.current != r.idle && IsLive(r, q)
    requires Reads(r, q, p, off) == AfterCopy(s, addr, bs[..|bs| - 1], q, p, off)
    ensures var n := |bs| - 1;
      Reads(Store(r, (addr + n) / PAGE_SIZE, (addr + n) % PAGE_SIZE, bs[n]), q, p, off)
      == AfterCopy(s, addr, bs, q, p, off)
  {
    ByteReads(r, addr + |bs| - 1, bs[|bs| - 1], q, p, off);
  }

  /** The bytes that the kernel copies into the caller's buffer on an event. */
  datatype Copy = Nothing | Bytes(addr: Word, bytes: seq<Byte>)

  function Delivery(s: State, e: Event): Copy {
    if s.current == s.idle then Nothing else
      match e
      case Statting(pid, st) =>
        var reply := GetStats(s, pid, st).1;
        if reply.Found? then Bytes(st, RecordBytes(reply.value)) else Nothing
      case Polling(addr, keys) => if PollKeys(s, addr, keys).1.Found? then Bytes(addr, keys) else Nothing
      case _ => Nothing
  }

  predicate Covers(c: Copy, p: FrameNo, off: int) { c.Bytes? && 0 <= p * PAGE_SIZE + off - c.addr < |c.bytes| }

  function DeliveredByte(c: Copy, p: FrameNo, off: int): Byte
    requires Covers(c, p, off)
  {
    c.bytes[p * PAGE_SIZE + off - c.addr]
  }

  /** The same for the two system calls that copy to their caller. */
  lemma CallReads(s: State, e: Event, q: Slot, p: FrameNo, off: int)
    requires Core(s) && IsLive(s, q) && 0 <= off < PAGE_SIZE && (e.Statting? || e.Polling?)
    ensures var c := Delivery(s, e);
      Reads(Next(s, e), q, p, off)
      == if Covers(c, p, off) && (q == s.current || p < PAG_LOG_INIT_DATA) then DeliveredByte(c, p, off)
         else Reads(s, q, p, off)
  {
    var c := Delivery(s, e);
    if c.Bytes? {
      if e.Statting? {
        StatsReads(s, e.pid, e.st, q, p, off);
      } else {
        CopyReads(s, c.addr, c.bytes, q, p, off);
      }
    }
  }

  lemma StatsReads(s: State, pid: int, st: Word, q: Slot, p: FrameNo, off: int)
    requires Core(s) && s.current != s.idle && IsLive(s, q) && 0 <= off < PAGE_SIZE && GetStats(s, pid, st).1.Found?
    ensures var (r, reply) := GetStats(s, pid, st);
      Reads(r, q, p, off) == AfterCopy(s, st, RecordBytes(reply.value), q, p, off)
  {
    var i := FindPid(s.tasks, pid, 0);
    var rec := s.tasks[i].stats.(remaining := s.remaining % WORD);
    CopyReads(s.(tasks := s.tasks[i := s.tasks[i].(stats := rec)]), st, RecordBytes(rec), q, p, off);
  }

  /** Another live process sees such a call exactly when the buffer meets a shared code page and a
      byte there is a new one. */
  lemma CallIsSeen(s: State, e: Event, j: Slot)
    requires Core(s) && (e.Statting? || e.Polling?) && IsLive(s, j) && j != s.current
    ensures var c := Delivery(s, e);
      SameView(s, Next(s, e), j)
      <==> forall p: FrameNo, off | p < PAG_LOG_INIT_DATA && 0 <= off < PAGE_SIZE && Covers(c, p, off) ::
             DeliveredByte(c, p, off) == Reads(s, s.current, p, off)
  {
    var c, r := Delivery(s, e), Next(s, e);
    forall p: FrameNo, off | 0 <= off < PAGE_SIZE
      ensures Reads(r, j, p, off) == if p < PAG_LOG_INIT_DATA && Covers(c, p, off) then DeliveredByte(c, p, off)
                                     else Reads(s, j, p, off)
    {
      CallReads(s, e, j, p, off);
    }
    forall p: FrameNo, off | p < PAG_LOG_INIT_DATA && 0 <= off < PAGE_SIZE && Covers(c, p, off)
      ensures Reads(s, s.current, p, off) == Reads(s, j, p, off)
    {
      LowPagesShared(s, s.current, j, p);
    }
  }

  /** An instance: the first process cannot store to its code, but has the kernel copy there, and its
      child reads the new bytes. */
  lemma FirstCallReachesCode(b: Params, keys: Keys, off: nat)
    requires b.Valid() && off < KEYS_SIZE
    ensures var s := Next(Boot(b), Forking(0, 0)); var r := Next(s, Polling(PAG_LOG_INIT_CODE * PAGE_SIZE, keys));
      && s.current == 1 && IsLive(s, 2) && !Enabled(s, Storing(PAG_LOG_INIT_CODE, off, keys[off]))
      && Reads(r, 2, PAG_LOG_INIT_CODE, off) == keys[off]
  {
    BootInv(b);
    ForkCopies(Boot(b), 0, 0);
    NextKeepsInv(Boot(b), Forking(0, 0));
    BootPages(b, PAG_LOG_INIT_CODE);
    KeysReachCode(Next(Boot(b), Forking(0, 0)), keys, off, 2);
  }

  lemma KeysReachCode(s: State, keys: Keys, off: nat, j: Slot)
    requires Core(s) && s.current != s.idle && IsLive(s, j) && off < KEYS_SIZE
    ensures Reads(Next(s, Polling(PAG_LOG_INIT_CODE * PAGE_SIZE, keys)), j, PAG_LOG_INIT_CODE, off) == keys[off]
  {
    CallReads(s, Polling(PAG_LOG_INIT_CODE * PAGE_SIZE, keys), j, PAG_LOG_INIT_CODE, off);
  }

  /** Which buffers `access_ok` accepts: those from the code pages up to the end of page 284. */
  lemma AcceptedBuffers(addr: Word, size: nat)
    requires size < 0x8000_0000
    ensures AccessOk(addr, size) <==>
            PAG_LOG_INIT_CODE * PAGE_SIZE <= addr && addr + size < (FIRST_TEMP + 1) * PAGE_SIZE
  {
  }

  predicate PresentAt(s: State, a: nat)
    requires a < TOTAL_PAGES * PAGE_SIZE
  {
    Translate(s, a / PAGE_SIZE).present
  }

  /** The processor reaches all of an accepted buffer if and only if it ends before page 284. */
  lemma AcceptedBufferIsMapped(s: State, addr: Word, size: nat)
    requires Core(s) && s.current != s.idle && AccessOk(addr, size) && 0 < size <= PAGE_SIZE
    ensures (forall a :: addr <= a < addr + size ==> PresentAt(s, a)) <==> Fits(addr, size)
  {
    AcceptedBuffers(addr, size);
    forall a | addr <= a < addr + size
      ensures PresentAt(s, a) <==> a < FIRST_TEMP * PAGE_SIZE
    {
      if a < FIRST_TEMP * PAGE_SIZE {
        UserPagePresent(s, s.current, a / PAGE_SIZE);
      }
    }
    var last := addr + size - 1;
    assert PresentAt(s, last) <==> last < FIRST_TEMP * PAGE_SIZE;
  }

  // ----- what events leave alone

  lemma StoreLeavesData(s: State, page: FrameNo, o: int, b: Byte, p: Slot, k: int, off: int)
    requires Core(s) && IsLive(s, p) && 0 <= k < NUM_PAG_DATA && 0 <= off < PAGE_SIZE
    requires Enabled(s, Storing(page, o, b)) && !(s.current == p && page == PAG_LOG_INIT_DATA + k)
    ensures Reads(Store(s, page, o, b), p, PAG_LOG_INIT_DATA + k, off) == Reads(s, p, PAG_LOG_INIT_DATA + k, off)
  {
    assert IsLive(s, s.current);
    assert Translate(s, page) == s.tables[s.current][page] != EMPTY;
    DataFrameIsPrivate(s, p, k, s.current, page);
  }

  lemma TickMovesNoPage(s: State, t1: Word, t2: Word, t3: Word)
    requires Core(s)
    ensures var r := Tick(s, t1, t2, t3);
      r.free == s.free && r.idle == s.idle && r.tables == s.tables && r.mem == s.mem
  {
    TickCases(s, t1, t2, t3);
    if s.current != s.idle {
      YieldRotates(s, t1, t2, t3);
    }
  }

  lemma ExitLeavesOthers(s: State, t2: Word, t3: Word)
    requires Core(s) && s.current != s.idle
    ensures var r := Exit(s, t2, t3);
      && r.mem == s.mem && r.idle == s.idle
      && forall i: Slot :: IsLive(s, i) && i != s.current ==> IsLive(r, i) && r.tables[i] == s.tables[i]
  {
    ExitShape(s, t2, t3);
    Push(s.free, s.current);
  }

  /** Process `p` does not exit anywhere in the run. */
  ghost predicate StaysAlive(s: State, es: seq<Event>, p: Slot)
    decreases |es|
  {
    es == [] || (!(s.current == p && es[0].Exiting?) && StaysAlive(Next(s, es[0]), es[1..], p))
  }

  lemma NextLeavesTable(s: State, e: Event, p: Slot)
    requires Inv(s) && IsLive(s, p) && !(s.current == p && e.Exiting?)
    ensures var r := Next(s, e); IsLive(r, p) && r.tables[p] == s.tables[p]
  {
    if Enabled(s, e) {
      match e
      case Clock(t1, t2, t3) => TickMovesNoPage(s, t1, t2, t3);
      case Forking(t1, t2) =>
        if s.free != [] {
          ForkCopies(s, t1, t2);
        }
      case Exiting(t2, t3) => ExitLeavesOthers(s, t2, t3);
      case Yielding(t1, t2, t3) => YieldRotates(s, t1, t2, t3);
      case _ => LightStep(s, e);
    }
  }

  /** A process keeps its page table for life, through its own forks and everybody else's. */
  lemma {:induction false} TableSurvivesRuns(s: State, es: seq<Event>, p: Slot)
    requires Inv(s) && IsLive(s, p) && StaysAlive(s, es, p)
    ensures var r := Execute(s, es); IsLive(r, p) && r.tables[p] == s.tables[p]
    decreases |es|
  {
    if es != [] {
      NextLeavesTable(s, es[0], p);
      NextKeepsInv(s, es[0]);
      TableSurvivesRuns(Next(s, es[0]), es[1..], p);
    }
  }

  // ----- what a data page holds

  /** Event `e` overwrites a byte of a page of the running process: its own store, or the kernel's
      copy into its buffer. */
  predicate Overwrites(s: State, e: Event, page: FrameNo, off: int) {
    (Enabled(s, e) && e.Storing? && e.page == page && e.off == off) || Covers(Delivery(s, e), page, off)
  }

  /** The new byte. */
  function NewByte(s: State, e: Event, page: FrameNo, off: int): Byte
    requires Overwrites(s, e, page, off)
  {
    if e.Storing? then e.b else DeliveredByte(Delivery(s, e), page, off)
  }

  lemma StoreOwnPage(s: State, page: FrameNo, o: int, b: Byte, off: int)
    requires Core(s) && 0 <= off < PAGE_SIZE && 0 <= o < PAGE_SIZE
    ensures Reads(Store(s, page, o, b), s.current, page, off) == if off == o then b else Reads(s, s.current, page, off)
  {
  }

  lemma StoringWrites(s: State, e: Event, p: Slot, k: int, off: int)
    requires Core(s) && IsLive(s, p) && 0 <= k < NUM_PAG_DATA && 0 <= off < PAGE_SIZE
    requires e.Storing? && Enabled(s, e)
    ensures var r := Next(s, e); var page := PAG_LOG_INIT_DATA + k;
      Reads(r, p, page, off)
      == if s.current == p && Overwrites(s, e, page, off) then NewByte(s, e, page, off) else Reads(s, p, page, off)
  {
    if s.current == p && e.page == PAG_LOG_INIT_DATA + k {
      StoreOwnPage(s, e.page, e.off, e.b, off);
    } else {
      StoreLeavesData(s, e.page, e.off, e.b, p, k, off);
    }
  }

  /** One event of another kind or process leaves a byte of a data page alone, and one that
      overwrites it leaves the new byte. */
  lemma NextWrites(s: State, e: Event, p: Slot, k: int, off: int)
    requires Inv(s) && IsLive(s, p) && 0 <= k < NUM_PAG_DATA && 0 <= off < PAGE_SIZE
    requires !(s.current == p && e.Exiting?)
    ensures var r := Next(s, e); var page := PAG_LOG_INIT_DATA + k;
      IsLive(r, p) && Reads(r, p, page, off)
      == if s.current == p && Overwrites(s, e, page, off) then NewByte(s, e, page, off) else Reads(s, p, page, off)
  {
    NextLeavesTable(s, e, p);
    if !Writes(e) {
      NextLeavesData(s, e, p, k, off);
    } else if e.Storing? {
      if Enabled(s, e) {
        StoringWrites(s, e, p, k, off);
      }
    } else {
      CallReads(s, e, p, PAG_LOG_INIT_DATA + k, off);
    }
  }

  lemma NextLeavesData(s: State, e: Event, p: Slot, k: int, off: int)
    requires Inv(s) && IsLive(s, p) && 0 <= k < NUM_PAG_DATA && 0 <= off < PAGE_SIZE
    requires !(s.current == p && e.Exiting?) && !Writes(e)
    ensures Reads(Next(s, e), p, PAG_LOG_INIT_DATA + k, off) == Reads(s, p, PAG_LOG_INIT_DATA + k, off)
  {
    if Enabled(s, e) {
      match e
      case Clock(t1, t2, t3) => TickMovesNoPage(s, t1, t2, t3);
      case Forking(t1, t2) =>
        if s.free != [] {
          ForkCopies(s, t1, t2);
        }
      case Exiting(t2, t3) => ExitLeavesOthers(s, t2, t3);
      case Yielding(t1, t2, t3) => YieldRotates(s, t1, t2, t3);
      case _ => LightShape(s, e);
    }
  }

  /** The last byte that process `p` stored at an offset of its page in the run, or had the kernel
      copy there; `v` if there is none. */
  function LastWritten(s: State, es: seq<Event>, p: Slot, page: FrameNo, off: int, v: Byte): Byte
    decreases |es|
  {
    if es == [] then v else
      LastWritten(Next(s, es[0]), es[1..], p, page, off,
                  if s.current == p && Overwrites(s, es[0], page, off) then NewByte(s, es[0], page, off) else v)
  }

  /** Memory is consistent over any run, whatever forks, exits, switches and stores happen: a byte of
      a data page of a process that stays alive is the last one the process itself wrote there. */
  lemma {:induction false} DataIsLastWritten(s: State, es: seq<Event>, p: Slot, k: int, off: int)
    requires Inv(s) && IsLive(s, p) && 0 <= k < NUM_PAG_DATA && 0 <= off < PAGE_SIZE
    requires StaysAlive(s, es, p)
    ensures var r := Execute(s, es); var page := PAG_LOG_INIT_DATA + k;
      IsLive(r, p) && Reads(r, p, page, off) == LastWritten(s, es, p, page, off, Reads(s, p, page, off))
    decreases |es|
  {
    if es != [] {
      NextWrites(s, es[0], p, k, off);
      NextKeepsInv(s, es[0]);
      DataIsLastWritten(Next(s, es[0]), es[1..], p, k, off);
    }
  }

  /** Process `p` neither exits nor overwrites the byte anywhere in the run. */
  ghost predicate LeavesAlone(s: State, es: seq<Event>, p: Slot, page: FrameNo, off: int)
    decreases |es|
  {
    es == [] ||
    (&& !(s.current == p && (es[0].Exiting? || Overwrites(s, es[0], page, off)))
     && LeavesAlone(Next(s, es[0]), es[1..], p, page, off))
  }

  /** So a byte of a data page changes only by a store of its own process or by a copy that a system
      call of this process asks for. */
  lemma {:induction false} DataSurvivesRuns(s: State, es: seq<Event>, p: Slot, k: int, off: int)
    requires Inv(s) && IsLive(s, p) && 0 <= k < NUM_PAG_DATA && 0 <= off < PAGE_SIZE
    requires LeavesAlone(s, es, p, PAG_LOG_INIT_DATA + k, off)
    ensures var r := Execute(s, es);
      IsLive(r, p) && Reads(r, p, PAG_LOG_INIT_DATA + k, off) == Reads(s, p, PAG_LOG_INIT_DATA + k, off)
    decreases |es|
  {
    if es != [] {
      NextWrites(s, es[0], p, k, off);
      NextKeepsInv(s, es[0]);
      DataSurvivesRuns(Next(s, es[0]), es[1..], p, k, off);
    }
  }

  /** The first process is always private: in any run, as long as it lives, the pages it can store
      to are exactly its data pages. */
  lemma FirstProcessIsPrivate(b: Params, es: seq<Event>, page: FrameNo, off: int, v: Byte)
    requires b.Valid() && StaysAlive(Boot(b), es, 1) && Execute(Boot(b), es).current == 1 && 0 <= off < PAGE_SIZE
    ensures Enabled(Execute(Boot(b), es), Storing(page, off, v)) <==> PAG_LOG_INIT_DATA <= page < FIRST_TEMP
  {
    var s := Execute(Boot(b), es);
    BootInv(b);
    BootLive();
    TableSurvivesRuns(Boot(b), es, 1);
    RunKeepsInv(Boot(b), es);
    BootPages(b, page);
    TranslateIsTable(s, page);
    if PAG_LOG_INIT_DATA <= page < FIRST_TEMP {
      assert DataFrame(s.tables, 1, page - PAG_LOG_INIT_DATA) > NUM_PAG_KERNEL;
    }
  }

  /** A forked process, in any run while it lives, can write to every page it has mapped: all its
      kernel, code and data pages. */
  lemma ForkedProcessWrites(s: State, t1: Word, t2: Word, es: seq<Event>, page: FrameNo)
    requires Inv(s) && s.current != s.idle && s.free != []
    requires StaysAlive(Next(s, Forking(t1, t2)), es, s.free[0])
    requires Execute(Next(s, Forking(t1, t2)), es).current == s.free[0]
    ensures UserWritable(Translate(Execute(Next(s, Forking(t1, t2)), es), page)) <==> page < FIRST_TEMP
  {
    var c := s.free[0];
    var s1 := Next(s, Forking(t1, t2));
    ForkCopies(s, t1, t2);
    NextKeepsInv(s, Forking(t1, t2));
    ForkedTable(s1, c, page);
    TableSurvivesRuns(s1, es, c);
    RunKeepsInv(s1, es);
    TranslateIsTable(Execute(s1, es), page);
  }

  lemma ForkedTable(s: State, c: Slot, page: FrameNo)
    requires Core(s) && IsLive(s, c)
    requires forall p :: 0 <= p < PAG_LOG_INIT_DATA ==> UserWritable(s.tables[c][p])
    ensures UserWritable(s.tables[c][page]) <==> page < FIRST_TEMP
  {
    if PAG_LOG_INIT_DATA <= page < FIRST_TEMP {
      assert s.tables[c][page] == Mapped(s.tables[c][page].frame);
    }
  }

  lemma TranslateIsTable(s: State, page: FrameNo)
    requires Core(s)
    ensures Translate(s, page) == s.tables[s.current][page]
  {
  }

  /** Which pages of the first process exist, and for whom: the kernel's for the kernel except
      page 0 and the guard pages, code read-only, data writable. */
  lemma BootPages(b: Params, page: FrameNo)
    ensures var e := Boot(b).tables[1][page];
      && (page < PAG_LOG_INIT_CODE ==>
            (e.present <==> page != 0 && page != b.guard && page != b.guard + NR_TASKS + 1))
      && (page >= PAG_LOG_INIT_CODE ==> (e.present <==> page < FIRST_TEMP))
      && (e.user <==> PAG_LOG_INIT_CODE <= page < FIRST_TEMP)
      && (e.user ==> (e.rw <==> PAG_LOG_INIT_DATA <= page))
  {
    BootAllocation(KernelPhys(), BOOT_FRAMES);
  }

  // ----- lookups

  /** For a non-negative process identifier and a buffer that it can fill, `sys_get_stats` answers
      with the record of the one process (or idle task) that has the identifier, and with ESRCH
      exactly when there is none. */
  lemma StatsLookup(s: State, pid: int, st: Word)
    requires Reachable(s) && pid >= 0 && AccessOk(st, STATS_SIZE)
    ensures var reply := GetStats(s, pid, st).1;
      && (reply == Failed(ESRCH) <==> forall i: Slot :: i !in s.free ==> s.tasks[i].pid != pid)
      && (forall i: Slot :: i !in s.free && s.tasks[i].pid == pid ==>
            reply == if !Fits(st, STATS_SIZE) then Faulted
                     else Found(s.tasks[i].stats.(remaining := s.remaining % WORD)))
  {
    ReachableInv(s);
    var j := FindPid(s.tasks, pid, 0);
    forall i: Slot | i !in s.free && s.tasks[i].pid == pid ensures i == j {
      assert i == s.idle || IsLive(s, i);
      assert j < NR_TASKS && j !in s.free;
      assert j == s.idle || IsLive(s, j);
    }
  }

  /** The ticks that a task can still run before it is preempted, now or from its next start. */
  function OwnRemaining(s: State, i: Slot): int { if i == s.current then s.remaining else s.tasks[i].quantum }

  /** The answer's `remaining` is that of the running task, whoever is asked for: it is right exactly
      for the running task, and otherwise when the running task has a full quantum left. */
  lemma RemainingIsTheRunners(s: State, pid: int, st: Word, i: Slot)
    requires Reachable(s) && pid >= 0 && i !in s.free && s.tasks[i].pid == pid && GetStats(s, pid, st).1.Found?
    ensures GetStats(s, pid, st).1.value.remaining == OwnRemaining(s, i)
            <==> i == s.current || s.remaining == DEFAULT_QUANTUM
  {
    RemainingAnswered(s, pid, st);
    QuantumRange(s, i);
  }

  lemma RemainingAnswered(s: State, pid: int, st: Word)
    requires GetStats(s, pid, st).1.Found?
    ensures GetStats(s, pid, st).1.value.remaining == s.remaining % WORD
  {
  }

  lemma QuantumRange(s: State, i: Slot)
    requires Reachable(s) && i !in s.free
    ensures 1 <= s.remaining <= DEFAULT_QUANTUM == s.tasks[i].quantum
  {
    ReachableInv(s);
  }

  function WordOf(bs: seq<Byte>, i: nat): (w: Word)
    requires i + 4 <= |bs|
  {
    bs[i] as int + 0x100 * (bs[i + 1] as int) + 0x1_0000 * (bs[i + 2] as int) + 0x100_0000 * (bs[i + 3] as int)
  }

  /** The record that a program finds in its 28 bytes. */
  function RecordOf(bs: seq<Byte>): Stats
    requires |bs| == STATS_SIZE
  {
    Stats(WordOf(bs, 0), WordOf(bs, 4), WordOf(bs, 8), WordOf(bs, 12), WordOf(bs, 16), WordOf(bs, 20), WordOf(bs, 24))
  }

  lemma WordRoundTrip(w: Word)
    ensures WordOf(WordBytes(w), 0) == w
  {
    var a := w / 0x100;
    var b := a / 0x100;
    assert w == 0x100 * a + w % 0x100 && a == 0x100 * b + a % 0x100 && b == 0x100 * (b / 0x100) + b % 0x100;
  }

  lemma RecordRoundTrip(st: Stats)
    ensures RecordOf(RecordBytes(st)) == st
  {
    var bs := RecordBytes(st);
    WordRoundTrip(st.user);
    WordRoundTrip(st.system);
    WordRoundTrip(st.blocked);
    WordRoundTrip(st.ready);
    WordRoundTrip(st.elapsed);
    WordRoundTrip(st.trans);
    WordRoundTrip(st.remaining);
    assert bs[..4] == WordBytes(st.user) && bs[4..8] == WordBytes(st.system) && bs[8..12] == WordBytes(st.blocked);
    assert bs[12..16] == WordBytes(st.ready) && bs[16..20] == WordBytes(st.elapsed);
    assert bs[20..24] == WordBytes(st.trans) && bs[24..] == WordBytes(st.remaining);
  }

  /** What a process reads in a buffer. */
  function Buffer(s: State, i: Slot, addr: nat, size: nat): (bs: seq<Byte>)
    requires addr + size <= TOTAL_PAGES * PAGE_SIZE
    ensures |bs| == size
  {
    seq<Byte>(size, k requires 0 <= k < size => Reads(s, i, (addr + k) / PAGE_SIZE, (addr + k) % PAGE_SIZE))
  }

  /** After a successful `sys_get_stats` the caller finds the record in its buffer, wherever in its
      code and data pages that lies. */
  lemma RecordArrives(s: State, pid: int, st: Word)
    requires Core(s) && s.current != s.idle && GetStats(s, pid, st).1.Found?
    ensures RecordOf(Buffer(Next(s, Statting(pid, st)), s.current, st, STATS_SIZE)) == GetStats(s, pid, st).1.value
  {
    var rec := GetStats(s, pid, st).1.value;
    BufferIsDelivered(s, Statting(pid, st), st, RecordBytes(rec));
    RecordRoundTrip(rec);
  }

  lemma BufferIsDelivered(s: State, e: Event, addr: Word, bs: seq<Byte>)
    requires Core(s) && (e.Statting? || e.Polling?) && Delivery(s, e) == Bytes(addr, bs)
    requires addr + |bs| <= TOTAL_PAGES * PAGE_SIZE
    ensures Buffer(Next(s, e), s.current, addr, |bs|) == bs
  {
    var got := Buffer(Next(s, e), s.current, addr, |bs|);
    forall k | 0 <= k < |bs| ensures got[k] == bs[k] {
      var a := addr + k;
      CallReads(s, e, s.current, a / PAGE_SIZE, a % PAGE_SIZE);
    }
  }

  /** The user, system, blocked and ready ticks of every record add up, modulo 2^32, to the time
      between its last `init_stats` and its last update. */
  lemma TicksAddUp(s: State, i: Slot)
    requires Reachable(s)
    ensures var st := s.tasks[i].stats;
      (st.user + st.system + st.blocked + st.ready) % WORD == (st.elapsed - s.start[i]) % WORD
  {
    ReachableConserved(s, i);
    ConservedAddsUp(s.tasks[i].stats, s.start[i]);
  }

  lemma ReachableConserved(s: State, i: Slot)
    requires Reachable(s)
    ensures Conserved(s.tasks[i].stats, s.start[i])
  {
    ReachableInv(s);
  }

  lemma ConservedAddsUp(st: Stats, start: Word)
    requires Conserved(st, start)
    ensures (st.user + st.system + st.blocked + st.ready) % WORD == (st.elapsed - start) % WORD
  {
    var sum, time := st.user + st.system + st.blocked + st.ready, st.elapsed - start;
    SameResidue(sum, time, (time - sum) / WORD);
  }

  /** Between kernel entries the processor's cached translations are those of the running
      process's page table, under its own directory. */
  lemma CachedTranslationsAreCurrent(s: State, p: FrameNo)
    requires Reachable(s)
    ensures s.cr3 == s.tasks[s.current].dir
    ensures Translate(s, p) == s.tables[s.current][p]
  {
    ReachableInv(s);
  }
}
