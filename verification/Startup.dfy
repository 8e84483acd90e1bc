/** The state in which the kernel first enters user mode, and the states reachable from it. */
module Startup {
  import opened Layout
  import opened Frames
  import opened Machine
  import opened Invariant

  const BOOT_FRAMES := NUM_PAG_CODE + NUM_PAG_DATA

  /** What the boot sequence does not fix: where the linker puts the task array inside the
      kernel image (two guard pages surround it), which kernel frames hold structures, the memory
      contents, four clock readings. */
  datatype Params = Params(guard: int, structures: set<FrameNo>, mem: Memory, i1: Word, i2: Word, u1: Word, u2: Word)
  {
    ghost predicate Valid() {
      && 1 <= guard && guard + NR_TASKS + 1 < NUM_PAG_KERNEL
      && forall f :: f in structures ==> f < NUM_PAG_KERNEL
    }
  }

  /** `init_frames`: only the kernel frames are in use. */
  function KernelPhys(): (p: Phys)
    ensures forall f: FrameNo :: p[f] <==> f < NUM_PAG_KERNEL
  {
    seq(TOTAL_PAGES, f => f < NUM_PAG_KERNEL)
  }

  /** `init_table_pages`: page 0 and the guard pages stay inaccessible. */
  function KernelEntry(guard: int, p: FrameNo): Pte {
    if 1 <= p < NUM_PAG_KERNEL then Pte(p, false, true, p != guard && p != guard + NR_TASKS + 1) else EMPTY
  }

  /** `set_user_pages`: the frames go to the code pages first, then to the data pages. */
  function UserEntry(guard: int, fs: seq<FrameNo>, p: FrameNo): Pte {
    if PAG_LOG_INIT_CODE <= p < PAG_LOG_INIT_DATA && p - PAG_LOG_INIT_CODE < |fs|
    then Pte(fs[p - PAG_LOG_INIT_CODE], true, false, true)
    else if PAG_LOG_INIT_DATA <= p < FIRST_TEMP && p - PAG_LOG_INIT_CODE < |fs|
    then Mapped(fs[p - PAG_LOG_INIT_CODE])
    else KernelEntry(guard, p)
  }

  function KernelTable(guard: int): Table {
    seq<Pte>(TOTAL_PAGES, p requires 0 <= p < TOTAL_PAGES => KernelEntry(guard, p))
  }

  function UserTable(guard: int, fs: seq<FrameNo>): Table {
    seq<Pte>(TOTAL_PAGES, p requires 0 <= p < TOTAL_PAGES => UserEntry(guard, fs, p))
  }

  function BootTables(guard: int, fs: seq<FrameNo>): Tables {
    var t: Tables := seq<Table>(NR_TASKS, _ => KernelTable(guard));
    t[1 := UserTable(guard, fs)]
  }

  function BootTasks(b: Params): Tasks {
    var t: Tasks := seq<Task>(NR_TASKS, _ => BLANK_TASK);
    t[0 := Task(0, 0, Run, DEFAULT_QUANTUM, InitStats(b.i1, b.i2))]
     [1 := Task(1, 1, Run, DEFAULT_QUANTUM, InitStats(b.u1, b.u2))]
  }

  function BootStart(b: Params): Words {
    var t: Words := seq<Word>(NR_TASKS, _ => 0);
    t[0 := b.i1][1 := b.u1]
  }

  function BootFree(): (q: seq<Slot>)
    ensures |q| == NR_TASKS - 2 && forall i :: 0 <= i < |q| ==> q[i] == i + 2
  {
    seq<Slot>(NR_TASKS - 2, i requires 0 <= i < NR_TASKS - 2 => i + 2)
  }

  /** After `init_mm`, `init_sched`, `init_idle` and `init_task1`: slot 0 is the idle task,
      slot 1 runs with the frames `fs`, the others are free. */
  function BootWith(b: Params, phys: Phys, fs: seq<FrameNo>): State {
    State(tasks := BootTasks(b), free := BootFree(), ready := [],
          current := 1, idle := 0, remaining := DEFAULT_QUANTUM, lastPid := FIRST_PID,
          phys := Mark(phys, fs), tables := BootTables(b.guard, fs), mem := b.mem,
          cr3 := 1, tlb := map[], tss := 1, msr := 1,
          structures := b.structures, start := BootStart(b))
  }

  function Boot(b: Params): State { BootWith(b, KernelPhys(), Allocated(KernelPhys(), BOOT_FRAMES)) }

  ghost predicate KernelOnly(phys: Phys) { forall f: FrameNo :: phys[f] <==> f < NUM_PAG_KERNEL }

  ghost predicate EverySecond(fs: seq<FrameNo>, n: nat) {
    |fs| == n && forall k :: 0 <= k < n ==> fs[k] == CodeFrame(k)
  }

  lemma MarkedEverySecond(phys: Phys, fs: seq<FrameNo>, n: nat, f: FrameNo)
    requires KernelOnly(phys) && EverySecond(fs, n)
    ensures Mark(phys, fs)[f] <==> f < NUM_PAG_KERNEL || (f < CodeFrame(n) && f % 2 == 0)
  {
    MarkAt(phys, fs, f);
    if NUM_PAG_KERNEL <= f < CodeFrame(n) && f % 2 == 0 {
      assert fs[(f - NUM_PAG_KERNEL) / 2] == f;
    }
  }

  lemma ScanEverySecond(phys: Phys, fs: seq<FrameNo>, n: nat)
    requires KernelOnly(phys) && EverySecond(fs, n) && CodeFrame(n) < TOTAL_PAGES
    ensures Scan(Mark(phys, fs), NUM_PAG_KERNEL) == CodeFrame(n)
  {
    var g := CodeFrame(n);
    var f := Scan(Mark(phys, fs), NUM_PAG_KERNEL);
    assert Visited(g);
    MarkedEverySecond(phys, fs, n, g);
    MarkedEverySecond(phys, fs, n, f);
  }

  /** From the initial bytemap the allocator hands out every second frame from 256 up. */
  lemma {:induction false} BootAllocation(phys: Phys, n: nat)
    requires KernelOnly(phys) && CodeFrame(n) <= TOTAL_PAGES
    ensures EverySecond(Allocated(phys, n), n)
  {
    if n > 0 {
      BootAllocation(phys, n - 1);
      var fs := Allocated(phys, n - 1);
      ScanEverySecond(phys, fs, n - 1);
      assert Allocated(phys, n) == Extend(phys, fs, n - 1) == fs + [CodeFrame(n - 1)];
    }
  }

  lemma {:induction false} NoneUsed(phys: Phys, i: nat)
    requires KernelOnly(phys) && NUM_PAG_KERNEL <= i <= TOTAL_PAGES
    ensures UsedFrom(phys, i) == 0
    decreases TOTAL_PAGES - i
  {
    if i < TOTAL_PAGES {
      NoneUsed(phys, i + 1);
    }
  }

  lemma BootLive()
    ensures forall i: Slot :: i in BootFree() <==> i >= 2
    ensures forall i: Slot :: Live(BootFree(), 0, i) <==> i == 1
  {
    forall i: Slot | i >= 2 ensures i in BootFree() {
      assert BootFree()[i - 2] == i;
    }
  }

  lemma BootMappings(guard: int, fs: seq<FrameNo>)
    requires EverySecond(fs, BOOT_FRAMES)
    ensures Mappings(BootFree(), 0, BootTables(guard, fs))
    ensures forall k :: 0 <= k < NUM_PAG_DATA ==> DataFrame(BootTables(guard, fs), 1, k) == CodeFrame(NUM_PAG_CODE + k)
  {
    BootLive();
  }

  lemma BootOwnership(guard: int, phys: Phys, fs: seq<FrameNo>)
    requires KernelOnly(phys) && EverySecond(fs, BOOT_FRAMES)
    ensures Ownership(BootFree(), 0, BootTables(guard, fs), Mark(phys, fs))
    ensures NoneLost(BootFree(), 0, BootTables(guard, fs), Mark(phys, fs))
  {
    BootLive();
    BootMappings(guard, fs);
    var tables := BootTables(guard, fs);
    forall f: FrameNo
      ensures Mark(phys, fs)[f] <==> Needed(BootFree(), 0, tables, f)
    {
      MarkedEverySecond(phys, fs, BOOT_FRAMES, f);
      var k := (f - NUM_PAG_KERNEL) / 2 - NUM_PAG_CODE;
      if CodeFrame(NUM_PAG_CODE) <= f < CodeFrame(BOOT_FRAMES) && f % 2 == 0 {
        assert DataFrame(tables, 1, k) == f;
      }
    }
  }

  lemma BootCore(b: Params, phys: Phys, fs: seq<FrameNo>)
    requires b.Valid() && KernelOnly(phys) && EverySecond(fs, BOOT_FRAMES)
    ensures var s := BootWith(b, phys, fs); Core(s) && Exact(s)
  {
    BootLive();
    BootMappings(b.guard, fs);
    BootOwnership(b.guard, phys, fs);
  }

  lemma BootCounts(b: Params, phys: Phys, fs: seq<FrameNo>)
    requires KernelOnly(phys) && EverySecond(fs, BOOT_FRAMES)
    ensures var s := BootWith(b, phys, fs); Capacity(s) && Pids(s) && Quanta(s) && Accounts(s)
  {
    BootLive();
    MarkCount(phys, fs);
    NoneUsed(phys, NUM_PAG_KERNEL);
  }

  lemma BootInv(b: Params)
    requires b.Valid()
    ensures Inv(Boot(b))
  {
    BootAllocation(KernelPhys(), BOOT_FRAMES);
    BootCore(b, KernelPhys(), Allocated(KernelPhys(), BOOT_FRAMES));
    BootCounts(b, KernelPhys(), Allocated(KernelPhys(), BOOT_FRAMES));
  }

  /** The states the kernel can be in after any run of events. */
  ghost predicate Reachable(s: State) {
    exists b: Params, es :: b.Valid() && s == Execute(Boot(b), es)
  }

  /** The invariant holds in every reachable state. */
  lemma ReachableInv(s: State)
    requires Reachable(s)
    ensures Inv(s)
  {
    var b: Params, es :| b.Valid() && s == Execute(Boot(b), es);
    BootInv(b);
    RunKeepsInv(Boot(b), es);
  }
}
