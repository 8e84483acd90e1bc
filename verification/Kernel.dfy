/** The kernel's data structures as the source has them: linked queues, the bytemap, page tables
    and physical memory updated in place. `Abs` gives the machine state they represent; each
    method is proved to do what the machine's function says. */
module Kernels {
  import opened Layout
  import opened Lists
  import opened Frames
  import opened Machine
  import opened Invariant
  import opened Startup

  class Kernel {
    const nodes: seq<ListHead>
    const freequeue: ListHead
    const readyqueue: ListHead
    const tasks: array<Task>
    const phys: array<bool>
    const tables: array<Table>
    const mem: array<Page>
    const structures: set<FrameNo>
    var current: Slot
    var idle: Slot
    var remaining: int
    var lastPid: int
    var cr3: Slot
    var tlb: map<FrameNo, Pte>
    var tss: Slot
    var msr: Slot
    ghost var free: seq<Slot>
    ghost var ready: seq<Slot>
    ghost var start: Words

    ghost predicate Fixed() {
      && |nodes| == NR_TASKS
      && (forall i :: 0 <= i < NR_TASKS ==> nodes[i].slot == i)
      && freequeue != readyqueue && freequeue.slot == -1 && readyqueue.slot == -1
      && tasks.Length == NR_TASKS && phys.Length == TOTAL_PAGES
      && tables.Length == NR_TASKS && mem.Length == TOTAL_PAGES
    }

    ghost function NodesOf(q: seq<Slot>): seq<ListHead>
      requires |nodes| == NR_TASKS
    {
      seq(|q|, k requires 0 <= k < |q| => nodes[q[k]])
    }

    /** Both queues are rings, no block is in both, and a block in neither is unlinked. */
    ghost predicate Valid()
      reads this, nodes, freequeue, readyqueue
    {
      && Fixed()
      && Ring(freequeue, NodesOf(free))
      && Ring(readyqueue, NodesOf(ready))
      && (forall i :: i in free ==> i !in ready)
      && (forall i: Slot :: i !in free && i !in ready ==> nodes[i].next == null && nodes[i].prev == null)
    }

    ghost function Abs(): State
      requires Fixed()
      reads this, tasks, phys, tables, mem
    {
      State(tasks[..], free, ready, current, idle, remaining, lastPid,
            phys[..], tables[..], mem[..], cr3, tlb, tss, msr, structures, start)
    }

    /** The kernel image as loaded: blank blocks and tables, the given memory contents. */
    constructor (memory: Memory, structures: set<FrameNo>)
      ensures Fixed()
      ensures fresh(nodes) && fresh(freequeue) && fresh(readyqueue)
      ensures fresh(tasks) && fresh(phys) && fresh(tables) && fresh(mem)
      ensures forall i: Slot :: nodes[i].next == null && nodes[i].prev == null
      ensures mem[..] == memory && this.structures == structures
      ensures forall i: Slot :: tasks[i] == BLANK_TASK.(pid := 0) && start[i] == 0
    {
      var ns: seq<ListHead> := [];
      for i := 0 to NR_TASKS
        invariant |ns| == i && fresh(ns)
        invariant forall j :: 0 <= j < i ==> ns[j].slot == j && ns[j].next == null && ns[j].prev == null
      {
        var n := new ListHead(i);
        ns := ns + [n];
      }
      nodes := ns;
      freequeue := new ListHead(-1);
      readyqueue := new ListHead(-1);
      tasks := new Task[NR_TASKS](_ => BLANK_TASK.(pid := 0));
      phys := new bool[TOTAL_PAGES](_ => false);
      tables := new Table[NR_TASKS](_ => BLANK_TABLE);
      mem := new Page[TOTAL_PAGES](f requires 0 <= f < TOTAL_PAGES => memory[f]);
      current, idle, remaining, lastPid := 0, 0, 0, FIRST_PID;
      cr3, tlb, tss, msr := 0, map[], 0, 0;
      this.structures := structures;
      free, ready, start := [], [], seq<Word>(NR_TASKS, _ => 0);
    }

    // ----- queues

    lemma QueueDistinct(q: seq<Slot>)
      requires Fixed() && Distinct(NodesOf(q))
      ensures Distinct(q)
    {
      forall i, j | 0 <= i < j < |q| ensures q[i] != q[j] {
        assert NodesOf(q)[i] != NodesOf(q)[j];
      }
    }

    lemma NodesMember(q: seq<Slot>, i: Slot)
      requires Fixed()
      ensures nodes[i] in NodesOf(q) <==> i in q
    {
      if nodes[i] in NodesOf(q) {
        var k :| 0 <= k < |q| && NodesOf(q)[k] == nodes[i];
      }
      if i in q {
        var k :| 0 <= k < |q| && q[k] == i;
        assert NodesOf(q)[k] == nodes[i];
      }
    }

    lemma QueuesApart()
      requires Valid()
      ensures forall n :: n in NodesOf(free) ==> n !in NodesOf(ready) && n != readyqueue
      ensures forall n :: n in NodesOf(ready) ==> n !in NodesOf(free) && n != freequeue
      ensures forall i: Slot :: nodes[i] in NodesOf(free) <==> i in free
      ensures forall i: Slot :: nodes[i] in NodesOf(ready) <==> i in ready
    {
      forall i: Slot
        ensures (nodes[i] in NodesOf(free) <==> i in free) && (nodes[i] in NodesOf(ready) <==> i in ready)
      {
        NodesMember(free, i);
        NodesMember(ready, i);
      }
    }

    lemma NodesRemoved(q: seq<Slot>, k: nat)
      requires Fixed() && k < |q|
      ensures NodesOf(q)[..k] + NodesOf(q)[k + 1..] == NodesOf(q[..k] + q[k + 1..])
    {
    }

    /** Inserting a block is sound because it is unlinked: it is in neither queue. */
    method MakeReady(i: Slot)
      requires Valid() && i !in free && i !in ready
      modifies `ready, nodes, readyqueue
      ensures Valid() && Abs() == old(Abs()).(ready := old(ready) + [i])
    {
      assert nodes[i].next == null && nodes[i].prev == null;
      QueuesApart();
      ListAddTail(nodes[i], readyqueue, NodesOf(ready));
      assert NodesOf(ready + [i]) == NodesOf(ready) + [nodes[i]];
      ready := ready + [i];
    }

    method MakeFree(i: Slot)
      requires Valid() && i !in free && i !in ready
      modifies `free, nodes, freequeue
      ensures Valid() && Abs() == old(Abs()).(free := old(free) + [i])
    {
      assert nodes[i].next == null && nodes[i].prev == null;
      QueuesApart();
      ListAddTail(nodes[i], freequeue, NodesOf(free));
      assert NodesOf(free + [i]) == NodesOf(free) + [nodes[i]];
      free := free + [i];
    }

    /** Unlinking a block is sound because it is in the queue it is unlinked from. */
    method UnlinkFree(i: Slot, ghost k: nat)
      requires Valid() && k < |free| && free[k] == i
      modifies `free, nodes, freequeue
      ensures Valid() && i !in free && i !in ready
      ensures Abs() == old(Abs()).(free := old(free)[..k] + old(free)[k + 1..])
    {
      QueueDistinct(free);
      QueuesApart();
      NodesRemoved(free, k);
      WithoutAt(free, k);
      ListDel(nodes[i], freequeue, NodesOf(free), k);
      free := free[..k] + free[k + 1..];
    }

    method UnlinkReady(i: Slot, ghost k: nat)
      requires Valid() && k < |ready| && ready[k] == i
      modifies `ready, nodes, readyqueue
      ensures Valid() && i !in free && i !in ready
      ensures Abs() == old(Abs()).(ready := old(ready)[..k] + old(ready)[k + 1..])
    {
      QueueDistinct(ready);
      QueuesApart();
      NodesRemoved(ready, k);
      WithoutAt(ready, k);
      ListDel(nodes[i], readyqueue, NodesOf(ready), k);
      ready := ready[..k] + ready[k + 1..];
    }

    method TakeFree() returns (i: Slot)
      requires Valid() && free != []
      modifies `free, nodes, freequeue
      ensures Valid() && i == old(free)[0] && i !in free && i !in ready
      ensures Abs() == old(Abs()).(free := old(free)[1..])
    {
      var lh := ListFirst(freequeue, NodesOf(free));
      i := lh.slot;
      UnlinkFree(i, 0);
    }

    method TakeReady() returns (i: Slot)
      requires Valid() && ready != []
      modifies `ready, nodes, readyqueue
      ensures Valid() && i == old(ready)[0] && i !in free && i !in ready
      ensures Abs() == old(Abs()).(ready := old(ready)[1..])
    {
      var lh := ListFirst(readyqueue, NodesOf(ready));
      i := lh.slot;
      UnlinkReady(i, 0);
    }

    method RemoveReady(i: Slot)
      requires Valid() && i in ready
      modifies `ready, nodes, readyqueue
      ensures Valid() && i !in free && i !in ready
      ensures Abs() == old(Abs()).(ready := Without(old(ready), i))
    {
      ghost var k :| 0 <= k < |ready| && ready[k] == i;
      QueueDistinct(ready);
      WithoutAt(ready, k);
      UnlinkReady(i, k);
    }

    // ----- frames and page tables

    method InitFrames()
      requires Valid()
      modifies phys
      ensures Abs() == old(Abs()).(phys := KernelPhys())
    {
      for i := 0 to TOTAL_PAGES
        invariant forall j :: 0 <= j < i ==> !phys[j]
      {
        phys[i] := false;
      }
      for i := 0 to NUM_PAG_KERNEL
        invariant forall j :: 0 <= j < TOTAL_PAGES ==> (phys[j] <==> j < i)
      {
        phys[i] := true;
      }
      assert phys[..] == KernelPhys();
    }

    method AllocFrame() returns (f: int)
      requires Valid()
      modifies phys
      ensures f == Scan(old(phys[..]), NUM_PAG_KERNEL)
      ensures Abs() == if f == -1 then old(Abs()) else old(Abs()).(phys := old(phys[..])[f := true])
    {
      var i := NUM_PAG_KERNEL;
      while i < TOTAL_PAGES
        invariant NUM_PAG_KERNEL <= i <= TOTAL_PAGES && i % 2 == 0
        invariant phys[..] == old(phys[..]) && Scan(phys[..], i) == Scan(phys[..], NUM_PAG_KERNEL)
      {
        if !phys[i] {
          phys[i] := true;
          assert phys[..] == old(phys[..])[i := true];
          return i;
        }
        i := i + 2;
      }
      return -1;
    }

    method FreeFrame(f: FrameNo)
      requires Valid()
      modifies phys
      ensures Abs() == old(Abs()).(phys := Free(old(phys[..]), f))
    {
      if f > NUM_PAG_KERNEL {
        phys[f] := false;
      }
    }

    method SetEntry(pt: Slot, page: FrameNo, e: Pte)
      requires Valid()
      modifies tables
      ensures Abs() == old(Abs()).(tables := old(tables[..])[pt := old(tables[pt])[page := e]])
    {
      tables[pt] := tables[pt][page := e];
    }

    /** `set_ss_pag`: clears the entry, then sets the frame and all three permission bits. */
    method SetSsPag(pt: Slot, page: FrameNo, frame: FrameNo)
      requires Valid()
      modifies tables
      ensures Abs() == old(Abs()).(tables := old(tables[..])[pt := old(tables[pt])[page := Mapped(frame)]])
    {
      SetEntry(pt, page, EMPTY);
      SetEntry(pt, page, tables[pt][page].(frame := frame));
      SetEntry(pt, page, tables[pt][page].(user := true));
      SetEntry(pt, page, tables[pt][page].(rw := true));
      SetEntry(pt, page, tables[pt][page].(present := true));
      assert tables[pt] == old(tables[pt])[page := Mapped(frame)];
    }

    method DelSsPag(pt: Slot, page: FrameNo)
      requires Valid()
      modifies tables
      ensures Abs() == old(Abs()).(tables := old(tables[..])[pt := old(tables[pt])[page := EMPTY]])
    {
      SetEntry(pt, page, EMPTY);
    }

    function GetFrame(pt: Slot, page: FrameNo): FrameNo
      requires Fixed()
      reads tables
    {
      tables[pt][page].frame
    }

    // ----- memory accesses through the TLB

    /** The processor may drop any cached translation and cache any present one at any time. */
    method Refill()
      requires Valid()
      modifies `tlb
      ensures TlbGrows(old(tlb), tlb, tables[cr3])
    {
      var evicted: set<FrameNo> := *;
      var fetched: int := *;
      tlb := tlb - evicted;
      if 0 <= fetched < TOTAL_PAGES && tables[cr3][fetched].present {
        tlb := tlb[fetched := tables[cr3][fetched]];
      }
    }

    /** Translation of a page by the processor: the cached entry wins over the table. */
    method Touch(page: FrameNo) returns (f: FrameNo)
      requires Valid() && Settled(tlb, tables[cr3], page)
      modifies `tlb
      ensures TlbGrows(old(tlb), tlb, tables[cr3]) && f == tables[cr3][page].frame
    {
      Refill();
      if page !in tlb {
        tlb := tlb[page := tables[cr3][page]];
      }
      f := tlb[page].frame;
    }

    method Load(addr: nat, n: nat) returns (bs: seq<Byte>)
      requires Valid() && addr / PAGE_SIZE < TOTAL_PAGES && addr % PAGE_SIZE + n <= PAGE_SIZE
      requires Settled(tlb, tables[cr3], addr / PAGE_SIZE)
      modifies `tlb
      ensures TlbGrows(old(tlb), tlb, tables[cr3])
      ensures bs == mem[tables[cr3][addr / PAGE_SIZE].frame][addr % PAGE_SIZE..addr % PAGE_SIZE + n]
    {
      var f := Touch(addr / PAGE_SIZE);
      bs := mem[f][addr % PAGE_SIZE..addr % PAGE_SIZE + n];
    }

    method Store(addr: nat, bs: seq<Byte>)
      requires Valid() && addr / PAGE_SIZE < TOTAL_PAGES && addr % PAGE_SIZE + |bs| <= PAGE_SIZE
      requires Settled(tlb, tables[cr3], addr / PAGE_SIZE)
      modifies `tlb, mem
      ensures TlbGrows(old(tlb), tlb, tables[cr3])
      ensures var f := tables[cr3][addr / PAGE_SIZE].frame;
        mem[..] == old(mem[..])[f := Overwrite(old(mem[f]), addr % PAGE_SIZE, bs)]
    {
      var f := Touch(addr / PAGE_SIZE);
      mem[f] := Overwrite(mem[f], addr % PAGE_SIZE, bs);
    }

    /** One read and one write of `k` bytes, `n` bytes into the two ranges. */
    method Move(start: nat, dest: nat, n: nat, k: nat, ghost m: Memory)
      requires Valid() && k > 0 && Copyable(tlb, tables[cr3], start, dest, n + k)
      requires mem[..] == AfterCopy(m, tables[cr3], start, dest, n)
      modifies `tlb, mem
      ensures TlbGrows(old(tlb), tlb, tables[cr3])
      ensures mem[..] == AfterCopy(m, tables[cr3], start, dest, n + k)
    {
      SamePage(start, n);
      SamePage(dest, n);
      CopiedMore(m, tables[cr3][start / PAGE_SIZE].frame, start % PAGE_SIZE,
                 tables[cr3][dest / PAGE_SIZE].frame, dest % PAGE_SIZE, n, k);
      var bs := Load(start + n, k);
      Store(dest + n, bs);
    }

    /** `copy_data` between two pages mapped to different frames: four bytes at a time while
        more than four are left, then byte by byte, each access translated by the processor. */
    method CopyData(start: nat, dest: nat, size: nat)
      requires Valid() && Copyable(tlb, tables[cr3], start, dest, size)
      modifies `tlb, mem
      ensures TlbGrows(old(tlb), tlb, tables[cr3])
      ensures mem[..] == AfterCopy(old(mem[..]), tables[cr3], start, dest, size)
    {
      ghost var m, t := mem[..], tables[cr3];
      var n, left := 0, size;
      CopiedNothing(m, t[start / PAGE_SIZE].frame, start % PAGE_SIZE, t[dest / PAGE_SIZE].frame, dest % PAGE_SIZE);
      while left > 4
        invariant n + left == size
        invariant TlbGrows(old(tlb), tlb, t)
        invariant mem[..] == AfterCopy(m, t, start, dest, n)
      {
        Move(start, dest, n, 4, m);
        n, left := n + 4, left - 4;
      }
      while left > 0
        invariant n + left == size
        invariant TlbGrows(old(tlb), tlb, t)
        invariant mem[..] == AfterCopy(m, t, start, dest, n)
      {
        Move(start, dest, n, 1, m);
        n, left := n + 1, left - 1;
      }
    }

    // ----- statistics

    method ChargeUserTicks(t: Slot, now: Word)
      requires Valid()
      modifies tasks
      ensures tasks[..] == old(tasks[..])[t := ChargeUser(old(tasks[t]), now)]
    {
      var v, e := UpdateStats(tasks[t].stats.user, tasks[t].stats.elapsed, now);
      tasks[t] := tasks[t].(stats := tasks[t].stats.(user := v, elapsed := e));
    }

    method ChargeSystemTicks(t: Slot, now: Word)
      requires Valid()
      modifies tasks
      ensures tasks[..] == old(tasks[..])[t := ChargeSystem(old(tasks[t]), now)]
    {
      var v, e := UpdateStats(tasks[t].stats.system, tasks[t].stats.elapsed, now);
      tasks[t] := tasks[t].(stats := tasks[t].stats.(system := v, elapsed := e));
    }

    method ChargeReadyTicks(t: Slot, now: Word)
      requires Valid()
      modifies tasks
      ensures tasks[..] == old(tasks[..])[t := ChargeReady(old(tasks[t]), now)]
    {
      var v, e := UpdateStats(tasks[t].stats.ready, tasks[t].stats.elapsed, now);
      tasks[t] := tasks[t].(stats := tasks[t].stats.(ready := v, elapsed := e));
    }

    method UserToSystem(now: Word)
      requires Valid()
      modifies tasks
      ensures Abs() == Next(old(Abs()), Entering(now))
    {
      ChargeUserTicks(current, now);
    }

    method SystemToUser(now: Word)
      requires Valid()
      modifies tasks
      ensures Abs() == Next(old(Abs()), Leaving(now))
    {
      ChargeSystemTicks(current, now);
    }

    // ----- scheduler

    /** `update_process_state_rr`, to the ready queue or to no queue at all; there is no third. */
    method UpdateProcessState(t: Slot, toReady: bool, now: Word)
      requires Valid()
      requires tasks[t].state == Run ==> t !in free && t !in ready
      requires tasks[t].state != Run ==> t in ready
      modifies `ready, nodes, readyqueue, tasks
      ensures Valid() && Abs() == if toReady then Requeue(old(Abs()), t, now) else Unqueue(old(Abs()), t)
    {
      if tasks[t].state != Run {
        RemoveReady(t);
      }
      if toReady {
        MakeReady(t);
        ChargeSystemTicks(t, now);
        tasks[t] := tasks[t].(state := Ready);
      } else {
        tasks[t] := tasks[t].(state := Run);
      }
    }

    /** `inner_task_switch`: both entry paths get the stack of the new task, CR3 its directory; the
        load of CR3 flushes the TLB. */
    method TaskSwitch(t: Slot)
      requires Valid()
      modifies `cr3, `tlb, `current, `tss, `msr
      ensures Abs() == old(Abs()).(tss := t, msr := t, cr3 := tasks[t].dir, tlb := map[], current := t)
    {
      tss := t;
      msr := t;
      cr3, tlb := tasks[t].dir, map[];
      current := t;
    }

    /** The updates of `sched_next_rr` to the blocks of the leaving and the starting task. */
    method StartTask(t: Slot, t2: Word, t3: Word)
      requires Valid()
      modifies tasks, `remaining
      ensures Abs() == old(Abs()).(tasks := Handover(old(tasks[..]), current, t, t2, t3),
                                   remaining := old(tasks[t].quantum))
      ensures tasks[t].dir == old(tasks[t].dir)
    {
      tasks[t] := tasks[t].(state := Run);
      remaining := tasks[t].quantum;
      ChargeSystemTicks(current, t2);
      ChargeReadyTicks(t, t3);
      tasks[t] := tasks[t].(stats := tasks[t].stats.(trans := (tasks[t].stats.trans + 1) % WORD));
      assert tasks[..] == Handover(old(tasks[..]), current, t, t2, t3);
    }

    /** The head of the ready queue, which it leaves, or the idle task. */
    method ChooseNext() returns (t: Slot)
      requires Valid()
      modifies `ready, nodes, readyqueue
      ensures Valid() && t == Chosen(old(Abs()))
      ensures Abs() == old(Abs()).(ready := if old(ready) != [] then old(ready)[1..] else [])
    {
      t := idle;
      var empty := ListEmpty(readyqueue, NodesOf(ready));
      if !empty {
        t := TakeReady();
      }
    }

    method SchedNext(t2: Word, t3: Word)
      requires Valid()
      modifies `ready, nodes, readyqueue, tasks, `remaining, `cr3, `tlb, `current, `tss, `msr
      ensures Valid() && Abs() == Dispatch(old(Abs()), t2, t3)
    {
      var t := ChooseNext();
      StartTask(t, t2, t3);
      TaskSwitch(t);
    }

    method ForceTaskSwitch(t1: Word, t2: Word, t3: Word)
      requires Valid() && tasks[current].state == Run && current !in free && current !in ready
      modifies `ready, nodes, readyqueue, tasks, `remaining, `cr3, `tlb, `current, `tss, `msr
      ensures Valid() && Abs() == Yield(old(Abs()), t1, t2, t3)
    {
      UpdateProcessState(current, true, t1);
      SchedNext(t2, t3);
    }

    /** `schedule`, with the test of `needs_sched_rr`: the quantum is used up and somebody waits;
        otherwise a used-up quantum starts again. */
    method Schedule(t1: Word, t2: Word, t3: Word)
      requires Valid() && tasks[current].state == Run && current !in free && current !in ready
      modifies `ready, nodes, readyqueue, tasks, `remaining, `cr3, `tlb, `current, `tss, `msr
      ensures Valid() && Abs() == Next(old(Abs()), Clock(t1, t2, t3))
    {
      remaining := remaining - 1;
      var empty := ListEmpty(readyqueue, NodesOf(ready));
      if remaining == 0 && !empty {
        ForceTaskSwitch(t1, t2, t3);
      } else if remaining == 0 {
        remaining := tasks[current].quantum;
      }
    }

    method SysYield(t1: Word, t2: Word, t3: Word)
      requires Valid() && Core(Abs()) && current != idle
      modifies `ready, nodes, readyqueue, tasks, `remaining, `cr3, `tlb, `current, `tss, `msr
      ensures Valid() && Abs() == Next(old(Abs()), Yielding(t1, t2, t3))
    {
      ForceTaskSwitch(t1, t2, t3);
    }

    /** Releases the frames of the first `n` data pages of a table, in page order. */
    method FreeDataPages(pt: Slot, n: nat)
      requires Valid() && n <= NUM_PAG_DATA
      modifies phys, tables
      ensures Abs() == old(Abs()).(
        phys := Release(old(phys[..]), DataFrames(old(tables[pt]))[..n]),
        tables := old(tables[..])[pt := ClearData(old(tables[pt]), n)])
    {
      ghost var s, t := Abs(), tables[pt];
      ghost var fs := DataFrames(t);
      assert ClearData(t, 0) == t;
      for i := 0 to n
        invariant Abs() == s.(phys := Release(s.phys, fs[..i]), tables := s.tables[pt := ClearData(t, i)])
      {
        assert fs[..i + 1] == fs[..i] + [fs[i]];
        assert ClearData(t, i)[PAG_LOG_INIT_DATA + i := EMPTY] == ClearData(t, i + 1);
        FreeFrame(GetFrame(pt, PAG_LOG_INIT_DATA + i));
        DelSsPag(pt, PAG_LOG_INIT_DATA + i);
      }
    }

    method SysExit(t2: Word, t3: Word)
      requires Valid() && Core(Abs()) && current != idle
      modifies `free, `ready, nodes, freequeue, readyqueue, tasks, phys, tables
      modifies `remaining, `cr3, `tlb, `current, `tss, `msr
      ensures Valid() && Abs() == Next(old(Abs()), Exiting(t2, t3))
    {
      var pt := tasks[current].dir;
      FreeDataPages(pt, NUM_PAG_DATA);
      assert DataFrames(old(tables[pt]))[..NUM_PAG_DATA] == DataFrames(old(tables[pt]));
      MakeFree(current);
      tasks[current] := tasks[current].(pid := -1);
      assert Abs() == Vacate(old(Abs()));
      SchedNext(t2, t3);
    }

    // ----- fork

    /** `copy_data` of the parent's block, list node included, then `allocate_DIR`. The parent
        runs, so its node is unlinked and the copied node is too. */
    method CopyBlock(c: Slot)
      requires Valid() && c !in free && c !in ready && current !in free && current !in ready
      modifies tasks, nodes[c], `start
      ensures Valid()
      ensures Abs() == old(Abs()).(tasks := old(tasks[..])[c := old(tasks[current]).(dir := c)],
                                   start := old(start)[c := old(start[current])])
    {
      QueuesApart();
      tasks[c] := tasks[current];
      nodes[c].next, nodes[c].prev := nodes[current].next, nodes[current].prev;
      start := start[c := start[current]];
      tasks[c] := tasks[c].(dir := c);
    }

    /** One round of the allocation loop of `sys_fork`. */
    method AllocDataPage(c: Slot, pag: nat, ghost s: State, ghost fs: seq<FrameNo>) returns (frame: int)
      requires Valid() && |fs| == pag < NUM_PAG_DATA
      requires Abs() == s.(phys := Mark(s.phys, fs), tables := s.tables[c := MapData(s.tables[c], fs)])
      modifies phys, tables
      ensures frame == Scan(Mark(s.phys, fs), NUM_PAG_KERNEL)
      ensures Abs() == if frame == -1 then old(Abs()) else
        s.(phys := Mark(s.phys, fs + [frame]), tables := s.tables[c := MapData(s.tables[c], fs + [frame])])
    {
      frame := AllocFrame();
      if frame != -1 {
        MappedOneMore(s.tables[c], fs, frame);
        assert (fs + [frame])[..pag] == fs;
        SetSsPag(c, PAG_LOG_INIT_DATA + pag, frame);
        assert tables[..] == s.tables[c := MapData(s.tables[c], fs + [frame])];
      }
    }

    /** The cleanup of `sys_fork` after `pag` pages were allocated. */
    method UndoDataPages(c: Slot, pag: nat, ghost s: State, ghost fs: seq<FrameNo>)
      requires Valid() && |fs| == pag <= NUM_PAG_DATA
      requires Abs() == s.(phys := Mark(s.phys, fs), tables := s.tables[c := MapData(s.tables[c], fs)])
      modifies phys, tables
      ensures Abs() == s.(phys := Release(Mark(s.phys, fs), fs), tables := s.tables[c := ClearData(s.tables[c], |fs|)])
    {
      ReleasedAll(s.tables[c], fs);
      FreeDataPages(c, pag);
      assert tables[..] == s.tables[c := ClearData(s.tables[c], pag)];
    }

    /** The allocation loop of `sys_fork`. When some frame is missing it releases the frames it
        got, in the order it got them. */
    method AllocDataPages(c: Slot) returns (ok: bool)
      requires Valid()
      modifies phys, tables
      ensures var s := old(Abs()); var fs := Allocated(s.phys, NUM_PAG_DATA);
        && (ok <==> |fs| == NUM_PAG_DATA)
        && Abs() == (if ok then s.(phys := Mark(s.phys, fs), tables := s.tables[c := MapData(s.tables[c], fs)])
                     else s.(phys := Release(Mark(s.phys, fs), fs),
                             tables := s.tables[c := ClearData(s.tables[c], |fs|)]))
    {
      ghost var s := Abs();
      ghost var fs := Allocated(s.phys, 0);
      assert fs == [] && MapData(s.tables[c], []) == s.tables[c];
      for pag := 0 to NUM_PAG_DATA
        invariant fs == Allocated(s.phys, pag) && |fs| == pag
        invariant Abs() == s.(phys := Mark(s.phys, fs), tables := s.tables[c := MapData(s.tables[c], fs)])
      {
        var frame := AllocDataPage(c, pag, s, fs);
        if frame == -1 {
          AllocatedEnds(s.phys, pag, NUM_PAG_DATA);
          UndoDataPages(c, pag, s, fs);
          return false;
        }
        fs := fs + [frame];
      }
      return true;
    }

    /** Maps the parent's kernel and code frames into the child. */
    method ShareLowPages(c: Slot, parent: Slot)
      requires Valid() && c != parent
      modifies tables
      ensures Abs() == old(Abs()).(
        tables := old(tables[..])[c := ShareLow(old(tables[c]), old(tables[parent]), PAG_LOG_INIT_DATA)])
    {
      ghost var s, t, u := Abs(), tables[c], tables[parent];
      assert ShareLow(t, u, 0) == t;
      for pag := 0 to NUM_PAG_KERNEL
        invariant Abs() == s.(tables := s.tables[c := ShareLow(t, u, pag)])
      {
        assert ShareLow(t, u, pag)[pag := Mapped(u[pag].frame)] == ShareLow(t, u, pag + 1);
        SetSsPag(c, pag, GetFrame(parent, pag));
      }
      for pag := 0 to NUM_PAG_CODE
        invariant Abs() == s.(tables := s.tables[c := ShareLow(t, u, PAG_LOG_INIT_CODE + pag)])
      {
        ghost var p := PAG_LOG_INIT_CODE + pag;
        assert ShareLow(t, u, p)[p := Mapped(u[p].frame)] == ShareLow(t, u, p + 1);
        SetSsPag(c, PAG_LOG_INIT_CODE + pag, GetFrame(parent, PAG_LOG_INIT_CODE + pag));
      }
    }

    /** One round of the copy loop: a child frame appears under a temporary page of the parent,
        receives the parent's page, and disappears again. The temporary page was never mapped
        before, so no stale translation is used. */
    method CopyOnePage(c: Slot, parent: Slot, pag: FrameNo)
      requires Valid() && parent == cr3 && c != parent && PAG_LOG_INIT_DATA <= pag < FIRST_TEMP
      requires tables[parent][pag].present && tables[parent][pag + NUM_PAG_DATA] == EMPTY
      requires tables[parent][pag].frame != tables[c][pag].frame
      requires AgreesBut(tlb, tables[parent], FIRST_TEMP, pag + NUM_PAG_DATA)
      modifies tables, mem, `tlb
      ensures var m := old(mem[..]);
        Abs() == old(Abs()).(mem := m[tables[c][pag].frame := m[tables[parent][pag].frame]], tlb := tlb)
      ensures AgreesBut(tlb, tables[parent], FIRST_TEMP, pag + NUM_PAG_DATA + 1)
    {
      ghost var m, t := mem[..], tables[parent];
      var temp := pag + NUM_PAG_DATA;
      SetSsPag(parent, temp, GetFrame(c, pag));
      assert Settled(tlb, tables[parent], pag) && Settled(tlb, tables[parent], temp);
      CopyData(pag * PAGE_SIZE, temp * PAGE_SIZE, PAGE_SIZE);
      CopiedAll(m, tables[parent][pag].frame, tables[parent][temp].frame);
      DelSsPag(parent, temp);
      assert tables[parent] == t;
    }

    method CopyDataPages(c: Slot, parent: Slot)
      requires Valid() && parent == cr3 && c != parent
      requires AgreesBut(tlb, tables[parent], FIRST_TEMP, FIRST_TEMP)
      requires ReadyToCopy(tables[parent], DataFrames(tables[c]))
      modifies tables, mem, `tlb
      ensures Abs() == old(Abs()).(
        mem := CopyPages(old(mem[..]), DataFrames(old(tables[parent])), DataFrames(old(tables[c]))), tlb := tlb)
    {
      ghost var s := Abs();
      ghost var t, u := tables[parent], tables[c];
      for pag := PAG_LOG_INIT_DATA to FIRST_TEMP
        invariant AgreesBut(tlb, t, FIRST_TEMP, pag + NUM_PAG_DATA)
        invariant Abs() == s.(mem := PagesCopied(s.mem, t, u, pag), tlb := tlb)
      {
        CopyRound(s.mem, t, u, pag);
        CopyOnePage(c, parent, pag);
      }
      assert DataFrames(t)[..NUM_PAG_DATA] == DataFrames(t) && DataFrames(u)[..NUM_PAG_DATA] == DataFrames(u);
    }

    /** The part of `sys_fork` between the allocation of the child's frames and the flush of the
        TLB, for a child slot `c` whose data pages already map the fresh frames `fs`. */
    method FillAddressSpace(c: Slot, ghost s: State, ghost fs: seq<FrameNo>)
      requires Valid() && CanCopy(s, c, fs)
      requires tables[..] == s.tables[c := MapData(s.tables[c], fs)]
      requires mem[..] == s.mem && cr3 == s.cr3 && tlb == s.tlb && current == s.current && tasks[current].dir == current
      modifies tables, mem, `cr3, `tlb
      ensures Abs() == old(Abs()).(tables := ForkTables(s, c, fs), mem := ForkMemory(s, fs),
                                   cr3 := s.current, tlb := map[])
    {
      var parent := tasks[current].dir;
      ShareLowPages(c, parent);
      assert tables[c] == ShareLow(MapData(s.tables[c], fs), s.tables[parent], PAG_LOG_INIT_DATA);
      assert tables[..] == s.tables[c := tables[c]];
      CopyDataPages(c, parent);
      cr3, tlb := tasks[current].dir, map[];
    }

    /** The end of `sys_fork`: identity, statistics and queueing of the child. */
    method Launch(c: Slot, t1: Word, t2: Word)
      requires Valid() && c !in free && c !in ready
      modifies `ready, nodes, readyqueue, tasks, `lastPid, `start
      ensures Valid()
      ensures var s := old(Abs());
        Abs() == s.(ready := s.ready + [c], lastPid := s.lastPid + 1, start := s.start[c := t1],
                    tasks := s.tasks[c := s.tasks[c].(pid := s.lastPid + 1, state := Ready,
                                                     stats := InitStats(t1, t2))])
    {
      lastPid := lastPid + 1;
      tasks[c] := tasks[c].(pid := lastPid, state := Ready);
      tasks[c] := tasks[c].(stats := InitStats(t1, t2));
      start := start[c := t1];
      MakeReady(c);
    }

    /** The start of `sys_fork`: the first free block becomes a copy of the parent's. */
    method ClaimBlock() returns (c: Slot)
      requires Valid() && free != [] && current !in free && current !in ready
      modifies `free, nodes, freequeue, tasks, `start
      ensures Valid() && c == old(free)[0] && c !in free && c !in ready
      ensures Abs() == Claimed(old(Abs()), c)
    {
      c := TakeFree();
      CopyBlock(c);
    }

    /** `sys_fork`, down to the queueing of the child; its stack is forged in ContextSwitch. */
    method SysFork(t1: Word, t2: Word) returns (r: int)
      requires Valid() && Core(Abs()) && current != idle
      modifies `free, `ready, nodes, freequeue, readyqueue, tasks, phys, tables, mem, `cr3, `tlb, `lastPid, `start
      ensures Valid() && (Abs(), r) == Fork(old(Abs()), t1, t2)
    {
      var empty := ListEmpty(freequeue, NodesOf(free));
      if empty {
        return -ENOMEM;
      }
      ghost var s := Abs();
      ghost var fs := Allocated(s.phys, NUM_PAG_DATA);
      if |fs| == NUM_PAG_DATA {
        ForkCanCopy(s, fs);
      }
      var c := ClaimBlock();
      r := ForkOnto(c, t1, t2, s, fs);
    }

    method ForkOnto(c: Slot, t1: Word, t2: Word, ghost s: State, ghost fs: seq<FrameNo>) returns (r: int)
      requires Valid() && s.free != [] && c !in free && c !in ready
      requires fs == Allocated(s.phys, NUM_PAG_DATA)
      requires |fs| == NUM_PAG_DATA ==> CanCopy(s, c, fs)
      requires Abs() == Claimed(s, c)
      modifies `free, `ready, nodes, freequeue, readyqueue, tasks, phys, tables, mem, `cr3, `tlb, `lastPid, `start
      ensures Valid()
      ensures if |fs| == NUM_PAG_DATA then Abs() == ForkChild(s, c, fs, t1, t2) && r == s.lastPid + 1
              else Abs() == ForkUndo(s, c, fs) && r == -EAGAIN
    {
      var ok := AllocDataPages(c);
      if ok {
        r := FinishFork(c, t1, t2, s, fs);
      } else {
        MakeFree(c);
        r := -EAGAIN;
      }
    }

    method FinishFork(c: Slot, t1: Word, t2: Word, ghost s: State, ghost fs: seq<FrameNo>) returns (r: int)
      requires Valid() && s.free != [] && CanCopy(s, c, fs)
      requires c !in free && c !in ready
      requires Abs() == Claimed(s, c).(phys := Mark(s.phys, fs), tables := s.tables[c := MapData(s.tables[c], fs)])
      modifies `ready, nodes, readyqueue, tasks, tables, mem, `cr3, `tlb, `lastPid, `start
      ensures Valid() && Abs() == ForkChild(s, c, fs, t1, t2) && r == s.lastPid + 1
    {
      FillAddressSpace(c, s, fs);
      Launch(c, t1, t2);
      ForkPieces(s, c, fs, t1, t2, Abs());
      r := lastPid;
    }

    /** One byte through the processor's translation of its page. */
    method WriteByte(page: FrameNo, off: int, b: Byte)
      requires Valid() && 0 <= off < PAGE_SIZE
      modifies mem, `tlb
      ensures Abs() == Machine.Store(old(Abs()), page, off, b)
    {
      var e := if page in tlb then tlb[page] else tables[cr3][page];
      tlb := tlb[page := e];
      mem[e.frame] := mem[e.frame][off := b];
    }

    /** Bytes `n` to `n + k` of the copy, each translated on its own: a word may cross into the next
        page. */
    method CopyBytes(bs: seq<Byte>, dest: nat, n: nat, k: nat, ghost s: State)
      requires Valid() && n + k <= |bs| && SoFar(s, dest, bs, n, Abs())
      modifies mem, `tlb
      ensures SoFar(s, dest, bs, n + k, Abs())
    {
      for i := n to n + k
        invariant SoFar(s, dest, bs, i, Abs())
      {
        OneByteFurther(s, dest, bs, i, Abs());
        WriteByte((dest + i) / PAGE_SIZE, (dest + i) % PAGE_SIZE, bs[i]);
      }
    }

    /** `copy_to_user`: four bytes at a time while more than four are left, then byte by byte. */
    method CopyToUser(bs: seq<Byte>, dest: nat)
      requires Valid() && dest + |bs| <= TOTAL_PAGES * PAGE_SIZE
      modifies mem, `tlb
      ensures Abs() == CopyOut(old(Abs()), dest, bs)
    {
      ghost var s := Abs();
      var n, left := 0, |bs|;
      while left > 4
        invariant 0 <= left == |bs| - n && SoFar(s, dest, bs, n, Abs())
      {
        CopyBytes(bs, dest, n, 4, s);
        n, left := n + 4, left - 4;
      }
      while left > 0
        invariant 0 <= left == |bs| - n && SoFar(s, dest, bs, n, Abs())
      {
        CopyBytes(bs, dest, n, 1, s);
        n, left := n + 1, left - 1;
      }
      assert bs[..n] == bs;
    }

    /** `sys_get_stats`. A call whose copy faults has no state afterwards; it is not carried out. */
    method SysGetStats(pid: int, st: Word) returns (reply: Reply<Stats>)
      requires Valid()
      modifies tasks, mem, `tlb
      ensures (Abs(), reply) == GetStats(old(Abs()), pid, st)
    {
      if !AccessOk(st, STATS_SIZE) {
        return Failed(EFAULT);
      }
      if pid < 0 {
        return Failed(EINVAL);
      }
      for i := 0 to NR_TASKS
        invariant Abs() == old(Abs()) && FindPid(tasks[..], pid, 0) == FindPid(tasks[..], pid, i)
      {
        if tasks[i].pid == pid {
          if !Fits(st, STATS_SIZE) {
            return Faulted;
          }
          tasks[i] := tasks[i].(stats := tasks[i].stats.(remaining := remaining % WORD));
          reply := Found(tasks[i].stats);
          CopyToUser(RecordBytes(tasks[i].stats), st);
          return;
        }
      }
      return Failed(ESRCH);
    }

    /** `sys_pollEvent`. */
    method SysPollEvent(addr: Word, keys: Keys) returns (reply: Reply<Keys>)
      requires Valid()
      modifies mem, `tlb
      ensures (Abs(), reply) == PollKeys(old(Abs()), addr, keys)
    {
      if !AccessOk(addr, KEYS_SIZE) {
        return Failed(EFAULT);
      }
      if !Fits(addr, KEYS_SIZE) {
        return Faulted;
      }
      CopyToUser(keys, addr);
      return Found(keys);
    }

    // ----- boot

    /** `init_table_pages`: kernel pages map themselves, except page 0 and the guard pages. */
    method InitTablePages(guard: int)
      requires Fixed() && 1 <= guard && guard + NR_TASKS + 1 < NUM_PAG_KERNEL
      modifies tables
      ensures forall j: Slot :: tables[j] == KernelTable(guard)
    {
      for j := 0 to NR_TASKS
        invariant forall k :: 0 <= k < j ==> tables[k] == KernelTable(guard)
      {
        for i := 0 to TOTAL_PAGES
          invariant forall k :: 0 <= k < j ==> tables[k] == KernelTable(guard)
          invariant forall p :: 0 <= p < i ==> tables[j][p] == EMPTY
        {
          tables[j] := tables[j][i := EMPTY];
        }
        for i := 1 to NUM_PAG_KERNEL
          invariant forall k :: 0 <= k < j ==> tables[k] == KernelTable(guard)
          invariant forall p :: 0 <= p < TOTAL_PAGES ==>
            tables[j][p] == if 1 <= p < i then Pte(p, false, true, true) else EMPTY
        {
          tables[j] := tables[j][i := Pte(i, false, true, true)];
        }
        tables[j] := tables[j][guard := tables[j][guard].(present := false)];
        tables[j] := tables[j][guard + NR_TASKS + 1 := tables[j][guard + NR_TASKS + 1].(present := false)];
        assert tables[j] == KernelTable(guard);
      }
    }

    /** `init_sched`: every block, marked as nobody's, goes into the free queue. */
    method InitSched()
      requires Fixed() && forall i: Slot :: nodes[i].next == null && nodes[i].prev == null
      modifies `free, `ready, nodes, freequeue, readyqueue, tasks
      ensures Valid() && ready == [] && free == AllSlots(NR_TASKS)
      ensures forall i: Slot :: tasks[i] == old(tasks[i]).(pid := -1)
    {
      InitListHead(freequeue);
      assert NodesOf(AllSlots(0)) == [];
      for i := 0 to NR_TASKS
        invariant Ring(freequeue, NodesOf(AllSlots(i)))
        invariant forall j: Slot :: tasks[j] == if j < i then old(tasks[j]).(pid := -1) else old(tasks[j])
      {
        tasks[i] := tasks[i].(pid := -1);
        NodesMember(AllSlots(i), i);
        ListAddTail(nodes[i], freequeue, NodesOf(AllSlots(i)));
        assert NodesOf(AllSlots(i + 1)) == NodesOf(AllSlots(i)) + [nodes[i]];
      }
      free, ready := AllSlots(NR_TASKS), [];
      assert readyqueue !in NodesOf(free);
      forall i: Slot ensures i in free {
        assert free[i] == i;
      }
      InitListHead(readyqueue);
      assert NodesOf([]) == [];
    }

    /** `init_idle`; the stack of the idle task is set up in ContextSwitch. */
    method InitIdle(t1: Word, t2: Word)
      requires Valid() && free != []
      modifies `free, nodes, freequeue, tasks, `idle, `start
      ensures Valid()
      ensures var s := old(Abs()); var c := s.free[0];
        Abs() == s.(free := s.free[1..], idle := c, start := s.start[c := t1],
                    tasks := s.tasks[c := s.tasks[c].(pid := 0, dir := c, quantum := DEFAULT_QUANTUM,
                                                     stats := InitStats(t1, t2))])
    {
      var c := TakeFree();
      tasks[c] := tasks[c].(pid := 0, dir := c, quantum := DEFAULT_QUANTUM, stats := InitStats(t1, t2));
      start := start[c := t1];
      idle := c;
    }

    /** One round of `set_user_pages`: the next user page, after those on `fs`, gets the next frame. */
    method MapUserPage(pt: Slot, page: FrameNo, rw: bool, ghost guard: int, ghost s: State, ghost fs: seq<FrameNo>)
      returns (ghost f: FrameNo)
      requires Valid() && KernelOnly(s.phys) && |fs| < BOOT_FRAMES && fs == Allocated(s.phys, |fs|)
      requires page == PAG_LOG_INIT_CODE + |fs| && (rw <==> |fs| >= NUM_PAG_CODE)
      requires Abs() == UserPagesOn(s, pt, guard, fs)
      modifies phys, tables
      ensures Abs() == UserPagesOn(s, pt, guard, fs + [f]) && fs + [f] == Allocated(s.phys, |fs| + 1)
    {
      BootFrameStep(s.phys, |fs|);
      f := CodeFrame(|fs|);
      UserPagePut(s, pt, guard, fs, f);
      var frame := AllocFrame();
      SetEntry(pt, page, Pte(frame, true, rw, true));
    }

    /** The same for the `n`-th user page. */
    method SetUserPage(pt: Slot, page: FrameNo, rw: bool, ghost guard: int, ghost s: State, ghost n: nat)
      requires Valid() && KernelOnly(s.phys) && n < BOOT_FRAMES
      requires page == PAG_LOG_INIT_CODE + n && (rw <==> n >= NUM_PAG_CODE)
      requires Abs() == UserPagesSet(s, pt, guard, n)
      modifies phys, tables
      ensures Abs() == UserPagesSet(s, pt, guard, n + 1)
    {
      BootAllocation(s.phys, n);
      ghost var f := MapUserPage(pt, page, rw, guard, s, Allocated(s.phys, n));
    }

    /** `set_user_pages`: eight read-only code pages, then twenty data pages, on fresh frames. */
    method SetUserPages(pt: Slot, ghost guard: int)
      requires Valid() && KernelOnly(phys[..]) && tables[pt] == KernelTable(guard)
      modifies phys, tables
      ensures Abs() == UserPagesSet(old(Abs()), pt, guard, BOOT_FRAMES)
    {
      ghost var s := Abs();
      assert UserTable(guard, []) == KernelTable(guard);
      assert tables[..] == s.tables[pt := KernelTable(guard)];
      for pag := 0 to NUM_PAG_CODE
        invariant Abs() == UserPagesSet(s, pt, guard, pag)
      {
        SetUserPage(pt, PAG_LOG_INIT_CODE + pag, false, guard, s, pag);
      }
      for pag := 0 to NUM_PAG_DATA
        invariant Abs() == UserPagesSet(s, pt, guard, NUM_PAG_CODE + pag)
      {
        SetUserPage(pt, PAG_LOG_INIT_DATA + pag, true, guard, s, NUM_PAG_CODE + pag);
      }
    }

    method InitTask1(ghost guard: int, t1: Word, t2: Word)
      requires Valid() && free != []
      requires KernelOnly(phys[..]) && tables[free[0]] == KernelTable(guard)
      modifies `free, nodes, freequeue, tasks, `start, phys, tables, `cr3, `tlb, `current, `tss, `msr, `remaining
      ensures Valid()
      ensures var s := old(Abs()); var c := s.free[0];
        Abs() == Task1Set(UserPagesSet(s, c, guard, BOOT_FRAMES), c, t1, t2)
    {
      ghost var s := Abs();
      var c := TakeFree();
      SetUserPages(c, guard);
      assert Abs() == UserPagesSet(s, c, guard, BOOT_FRAMES).(free := s.free[1..]);
      StartTask1(c, t1, t2);
    }

    /** The fields of the first process; they are independent of its page table. */
    method StartTask1(c: Slot, t1: Word, t2: Word)
      requires Valid()
      modifies tasks, `start, `cr3, `tlb, `current, `tss, `msr, `remaining
      ensures var s := old(Abs());
        Abs() == s.(current := c, remaining := DEFAULT_QUANTUM, start := s.start[c := t1],
                    tasks := s.tasks[c := s.tasks[c].(pid := 1, dir := c, state := Run, quantum := DEFAULT_QUANTUM,
                                                     stats := InitStats(t1, t2))],
                    tss := c, msr := c, cr3 := c, tlb := map[])
    {
      tasks[c] := tasks[c].(pid := 1, dir := c, state := Run, quantum := DEFAULT_QUANTUM, stats := InitStats(t1, t2));
      remaining := tasks[c].quantum;
      start := start[c := t1];
      tss := c;
      msr := c;
      cr3, tlb := tasks[c].dir, map[];
      current := c;
    }

    /** `init_mm` and `init_sched`. */
    method InitMemoryAndQueues(guard: int)
      requires 1 <= guard && guard + NR_TASKS + 1 < NUM_PAG_KERNEL && Fixed()
      requires forall i: Slot :: nodes[i].next == null && nodes[i].prev == null
      requires forall i: Slot :: tasks[i] == BLANK_TASK.(pid := 0)
      modifies `free, `ready, nodes, freequeue, readyqueue, tasks, phys, tables
      ensures Valid() && ready == [] && free == AllSlots(NR_TASKS) && phys[..] == KernelPhys()
      ensures forall i: Slot :: tasks[i] == BLANK_TASK && tables[i] == KernelTable(guard)
    {
      InitTablePages(guard);
      InitSched();
      InitFrames();
    }

    /** The boot sequence, from the image as loaded to the first entry into user mode. */
    method BootKernel(b: Params)
      requires b.Valid() && Fixed()
      requires forall i: Slot :: nodes[i].next == null && nodes[i].prev == null
      requires forall i: Slot :: tasks[i] == BLANK_TASK.(pid := 0) && start[i] == 0
      requires mem[..] == b.mem && structures == b.structures && lastPid == FIRST_PID
      modifies this, nodes, freequeue, readyqueue, tasks, phys, tables
      ensures Valid() && Abs() == Boot(b)
    {
      InitMemoryAndQueues(b.guard);
      assert free == [0, 1] + BootFree();
      InitIdle(b.i1, b.i2);
      InitTask1(b.guard, b.u1, b.u2);
      assert tasks[..] == BootTasks(b);
      assert start == BootStart(b);
      assert tables[..] == BootTables(b.guard, Allocated(KernelPhys(), BOOT_FRAMES));
      assert free == BootFree();
    }

    // ----- whole runs

    /** A user store, by the cached translation if there is one; it is cached if there is none. */
    method StoreThrough(page: FrameNo, off: int, b: Byte)
      requires Valid()
      modifies mem, `tlb
      ensures Abs() == Next(old(Abs()), Storing(page, off, b))
    {
      if current != idle && 0 <= off < PAGE_SIZE {
        var e := if page in tlb then tlb[page] else tables[cr3][page];
        if UserWritable(e) && e.frame !in structures {
          WriteByte(page, off, b);
        }
      }
    }

    /** The processor caches the translation of a page that is present. */
    method CacheEntry(page: FrameNo)
      requires Valid()
      modifies `tlb
      ensures Abs() == Next(old(Abs()), Caching(page))
    {
      if tables[cr3][page].present {
        tlb := tlb[page := tables[cr3][page]];
      }
    }

    /** A system call of the running process; the idle task makes none. */
    method ServeCall(e: Event)
      requires Valid() && Core(Abs()) && (e.Forking? || e.Exiting? || e.Yielding?)
      modifies this, nodes, freequeue, readyqueue, tasks, phys, tables, mem
      ensures Valid() && Abs() == Next(old(Abs()), e)
    {
      if current != idle {
        match e
        case Forking(t1, t2) => var _ := SysFork(t1, t2);
        case Exiting(t2, t3) => SysExit(t2, t3);
        case Yielding(t1, t2, t3) => SysYield(t1, t2, t3);
      }
    }

    /** A system call that copies to its caller. */
    method ServeQuery(e: Event)
      requires Valid() && (e.Statting? || e.Polling?)
      modifies tasks, mem, `tlb
      ensures Valid() && Abs() == Next(old(Abs()), e)
    {
      if current != idle {
        match e
        case Statting(pid, st) => var _ := SysGetStats(pid, st);
        case Polling(addr, keys) => var _ := SysPollEvent(addr, keys);
      }
    }

    /** One event, whether the kernel is entered or the processor acts on its own; one that cannot
        happen is not served. */
    method Serve(e: Event)
      requires Valid() && Core(Abs())
      modifies this, nodes, freequeue, readyqueue, tasks, phys, tables, mem
      ensures Valid() && Abs() == Next(old(Abs()), e)
    {
      match e
      case Clock(t1, t2, t3) => ServeClock(t1, t2, t3);
      case Entering(t) => UserToSystem(t);
      case Leaving(t) => SystemToUser(t);
      case Storing(_, _, _) => ServeAccess(e);
      case Caching(_) => ServeAccess(e);
      case Evicting(_) => ServeAccess(e);
      case Statting(_, _) => ServeQuery(e);
      case Polling(_, _) => ServeQuery(e);
      case _ => ServeCall(e);
    }

    /** What the processor does on its own. */
    method ServeAccess(e: Event)
      requires Valid() && (e.Storing? || e.Caching? || e.Evicting?)
      modifies mem, `tlb
      ensures Valid() && Abs() == Next(old(Abs()), e)
    {
      match e
      case Storing(page, off, b) => StoreThrough(page, off, b);
      case Caching(page) => CacheEntry(page);
      case Evicting(pages) => tlb := tlb - pages;
    }

    method ServeClock(t1: Word, t2: Word, t3: Word)
      requires Valid() && Core(Abs())
      modifies `ready, nodes, readyqueue, tasks, `remaining, `cr3, `tlb, `current, `tss, `msr
      ensures Valid() && Abs() == Next(old(Abs()), Clock(t1, t2, t3))
    {
      Schedule(t1, t2, t3);
    }

    /** The linked data structures refine the machine over whole runs: from boot, any series of
        events leaves them representing the state the machine reaches. */
    method BootAndServe(b: Params, es: seq<Event>)
      requires b.Valid() && Fixed()
      requires forall i: Slot :: nodes[i].next == null && nodes[i].prev == null
      requires forall i: Slot :: tasks[i] == BLANK_TASK.(pid := 0) && start[i] == 0
      requires mem[..] == b.mem && structures == b.structures && lastPid == FIRST_PID
      modifies this, nodes, freequeue, readyqueue, tasks, phys, tables, mem
      ensures Valid() && Abs() == Execute(Boot(b), es) && Reachable(Abs())
    {
      BootKernel(b);
      BootInv(b);
      for i := 0 to |es|
        invariant Valid() && Core(Abs())
        invariant Execute(Boot(b), es) == Execute(Abs(), es[i..])
      {
        NextKeepsCore(Abs(), es[i]);
        Serve(es[i]);
      }
    }
  }

  function AllSlots(n: nat): (q: seq<Slot>)
    requires n <= NR_TASKS
    ensures |q| == n && forall i :: 0 <= i < n ==> q[i] == i
  {
    seq<Slot>(n, i requires 0 <= i < n => i)
  }

  /** The state `s` after the first `n` user pages of table `pt` got their frames. */
  function UserPagesSet(s: State, pt: Slot, guard: int, n: nat): State {
    UserPagesOn(s, pt, guard, Allocated(s.phys, n))
  }

  function UserPagesOn(s: State, pt: Slot, guard: int, fs: seq<FrameNo>): State {
    s.(phys := Mark(s.phys, fs), tables := s.tables[pt := UserTable(guard, fs)])
  }

  function Task1Set(s: State, c: Slot, t1: Word, t2: Word): State
    requires s.free != []
  {
    s.(free := s.free[1..], current := c, remaining := DEFAULT_QUANTUM, start := s.start[c := t1],
       tasks := s.tasks[c := s.tasks[c].(pid := 1, dir := c, state := Run, quantum := DEFAULT_QUANTUM,
                                         stats := InitStats(t1, t2))],
       tss := c, msr := c, cr3 := c, tlb := map[])
  }

  /** State `a` after frame `f` was taken and mapped at page `page`. */
  function PagePut(a: State, pt: Slot, page: FrameNo, f: FrameNo, rw: bool): State {
    a.(phys := a.phys[f := true], tables := a.tables[pt := a.tables[pt][page := Pte(f, true, rw, true)]])
  }

  /** One more page in the table and one more frame in use. */
  lemma UserPagePut(s: State, pt: Slot, guard: int, fs: seq<FrameNo>, f: FrameNo)
    requires |fs| < BOOT_FRAMES && Mark(s.phys, fs + [f]) == Mark(s.phys, fs)[f := true]
    ensures UserPagesOn(s, pt, guard, fs + [f])
         == PagePut(UserPagesOn(s, pt, guard, fs), pt, PAG_LOG_INIT_CODE + |fs|, f, |fs| >= NUM_PAG_CODE)
  {
    UserTableStep(guard, fs, f);
    PutTwice(s.tables, pt, UserTable(guard, fs), UserTable(guard, fs + [f]));
  }

  lemma PutTwice(ts: Tables, pt: Slot, x: Table, y: Table)
    ensures ts[pt := x][pt] == x && ts[pt := x][pt := y] == ts[pt := y]
  {
  }

  /** The allocation for the next user page. */
  lemma BootFrameStep(phys: Phys, n: nat)
    requires KernelOnly(phys) && n < BOOT_FRAMES
    ensures var fs, f := Allocated(phys, n), CodeFrame(n);
      && |fs| == n && Scan(Mark(phys, fs), NUM_PAG_KERNEL) == f && Allocated(phys, n + 1) == fs + [f]
      && Mark(phys, fs + [f]) == Mark(phys, fs)[f := true]
  {
    var fs, gs := Allocated(phys, n), Allocated(phys, n + 1);
    BootAllocation(phys, n);
    BootAllocation(phys, n + 1);
    ScanEverySecond(phys, fs, n);
    assert gs == fs + [CodeFrame(n)] && gs[..n] == fs;
  }

  lemma UserTableStep(guard: int, fs: seq<FrameNo>, f: FrameNo)
    requires |fs| < BOOT_FRAMES
    ensures UserTable(guard, fs + [f]) ==
      UserTable(guard, fs)[PAG_LOG_INIT_CODE + |fs| := Pte(f, true, |fs| >= NUM_PAG_CODE, true)]
  {
  }

  // ----- values used by the methods

  /** `update_stats`: both operations wrap around at 32 bits. */
  method UpdateStats(v: Word, elapsed: Word, now: Word) returns (v': Word, elapsed': Word)
    ensures v' == Accrue(v, elapsed, now) && elapsed' == now
  {
    var d := (now - elapsed) % WORD;
    SameResidue(v + d, v + now - elapsed, (now - elapsed) / WORD);
    v' := (v + d) % WORD;
    elapsed' := now;
  }

  lemma MappedOneMore(t: Table, fs: seq<FrameNo>, frame: FrameNo)
    requires |fs| < NUM_PAG_DATA
    ensures MapData(t, fs)[PAG_LOG_INIT_DATA + |fs| := Mapped(frame)] == MapData(t, fs + [frame])
  {
  }

  lemma ReleasedAll(t: Table, fs: seq<FrameNo>)
    requires |fs| <= NUM_PAG_DATA
    ensures ClearData(MapData(t, fs), |fs|) == ClearData(t, |fs|)
    ensures DataFrames(MapData(t, fs))[..|fs|] == fs
  {
  }

  /** The first free block has become a copy of the parent's. */
  function Claimed(s: State, c: Slot): State
    requires s.free != []
  {
    s.(free := s.free[1..], tasks := s.tasks[c := s.tasks[s.current].(dir := c)],
       start := s.start[c := s.start[s.current]])
  }

  /** The claimed, filled and launched block together are what `ForkChild` says. */
  lemma ForkPieces(s: State, c: Slot, fs: seq<FrameNo>, t1: Word, t2: Word, r: State)
    requires s.free != [] && CanCopy(s, c, fs)
    requires var p := s.tasks[s.current];
      r == s.(free := s.free[1..], ready := s.ready + [c], lastPid := s.lastPid + 1,
              phys := Mark(s.phys, fs), tables := ForkTables(s, c, fs), mem := ForkMemory(s, fs),
              cr3 := s.current, tlb := map[],
              start := s.start[c := s.start[s.current]][c := t1],
              tasks := s.tasks[c := p.(dir := c)]
                [c := p.(dir := c).(pid := s.lastPid + 1, state := Ready, stats := InitStats(t1, t2))])
    ensures r == ForkChild(s, c, fs, t1, t2)
  {
    var f := ForkChild(s, c, fs, t1, t2);
    assert r.tasks == f.tasks && r.start == f.start;
  }

  /** What filling the child's address space needs: the parent's pages are mapped, its temporary
      pages are not, no stale translation is cached, and `fs` are fresh. */
  ghost predicate CanCopy(s: State, c: Slot, fs: seq<FrameNo>) {
    var t := s.tables[s.current];
    && c != s.current && s.cr3 == s.current && s.tasks[s.current].dir == s.current
    && AgreesBut(s.tlb, t, FIRST_TEMP, FIRST_TEMP)
    && |fs| == NUM_PAG_DATA && ReadyToCopy(t, fs)
    && DataFrames(ShareLow(MapData(s.tables[c], fs), t, PAG_LOG_INIT_DATA)) == fs
  }

  /** The data pages of table `t` are mapped, its temporary pages are not, and `fs` are distinct
      frames that it does not map as data. */
  ghost predicate ReadyToCopy(t: Table, fs: seq<FrameNo>) {
    && (forall p :: PAG_LOG_INIT_DATA <= p < FIRST_TEMP ==> t[p].present)
    && (forall p :: FIRST_TEMP <= p < FIRST_TEMP + NUM_PAG_DATA ==> t[p] == EMPTY)
    && Distinct(fs)
    && (forall k :: 0 <= k < NUM_PAG_DATA ==> DataFrames(t)[k] !in fs)
  }

  /** Memory after the data pages of table `t` below `pag` were copied to those of `u`. */
  function PagesCopied(m: Memory, t: Table, u: Table, pag: int): Memory
    requires PAG_LOG_INIT_DATA <= pag <= FIRST_TEMP
  {
    var n := pag - PAG_LOG_INIT_DATA;
    CopyPages(m, DataFrames(t)[..n], DataFrames(u)[..n])
  }

  /** One round of the copy loop can start, and takes the copy one page further. */
  lemma CopyRound(m: Memory, t: Table, u: Table, pag: int)
    requires PAG_LOG_INIT_DATA <= pag < FIRST_TEMP && ReadyToCopy(t, DataFrames(u))
    ensures t[pag].present && t[pag + NUM_PAG_DATA] == EMPTY && t[pag].frame != u[pag].frame
    ensures var now := PagesCopied(m, t, u, pag);
      PagesCopied(m, t, u, pag + 1) == now[u[pag].frame := now[t[pag].frame]]
  {
    var n, src, dst := pag - PAG_LOG_INIT_DATA, DataFrames(t), DataFrames(u);
    assert src[n] == t[pag].frame && dst[n] == u[pag].frame;
    assert dst[n] in dst;
    CopyPagesMore(m, src, dst, n);
  }

  lemma ForkCanCopy(s: State, fs: seq<FrameNo>)
    requires Core(s) && s.current != s.idle && s.free != []
    requires fs == Allocated(s.phys, NUM_PAG_DATA) && |fs| == NUM_PAG_DATA
    ensures CanCopy(s, s.free[0], fs)
  {
    ParentFramesTaken(s, fs);
    ChildFrames(s.tables[s.free[0]], s.tables[s.current], fs);
    assert Live(s.free, s.idle, s.current);
  }

  lemma ChildFrames(t: Table, parent: Table, fs: seq<FrameNo>)
    requires |fs| == NUM_PAG_DATA
    ensures DataFrames(ShareLow(MapData(t, fs), parent, PAG_LOG_INIT_DATA)) == fs
  {
  }

  lemma ParentFramesTaken(s: State, fs: seq<FrameNo>)
    requires Core(s) && s.current != s.idle && fs == Allocated(s.phys, NUM_PAG_DATA)
    ensures Distinct(fs)
    ensures forall k :: 0 <= k < NUM_PAG_DATA ==> DataFrames(s.tables[s.current])[k] !in fs
  {
    AllocatedFresh(s.phys, NUM_PAG_DATA);
    var src := DataFrames(s.tables[s.current]);
    assert Live(s.free, s.idle, s.current);
    forall k | 0 <= k < NUM_PAG_DATA ensures s.phys[src[k]] {
      assert src[k] == DataFrame(s.tables, s.current, k);
      assert Owned(s.free, s.idle, s.tables, src[k]);
    }
  }

  /** Cached translations agree with table `t`, except perhaps those of pages `from`..`to`. */
  ghost predicate AgreesBut(tlb: map<FrameNo, Pte>, t: Table, from: int, to: int) {
    forall p :: p in tlb ==> from <= p < to || (0 <= p < TOTAL_PAGES && t[p].present && t[p] == tlb[p])
  }

  lemma CopiedAll(m: Memory, sf: FrameNo, tf: FrameNo)
    ensures Copied(m, sf, 0, tf, 0, PAGE_SIZE) == m[tf := m[sf]]
  {
    assert Overwrite(m[tf], 0, m[sf][0..PAGE_SIZE]) == m[sf];
  }

  lemma CopyPagesMore(m: Memory, src: seq<FrameNo>, dst: seq<FrameNo>, n: nat)
    requires n < |src| == |dst| && Distinct(dst) && src[n] !in dst
    ensures var now := CopyPages(m, src[..n], dst[..n]);
      CopyPages(m, src[..n + 1], dst[..n + 1]) == now[dst[n] := now[src[n]]]
  {
    assert src[..n + 1][..n] == src[..n] && dst[..n + 1][..n] == dst[..n];
    CopyPagesAt(m, src[..n], dst[..n], src[n]);
  }

  /** Cached translations of `b` are old ones or present entries of table `t`. */
  ghost predicate TlbGrows(a: map<FrameNo, Pte>, b: map<FrameNo, Pte>, t: Table) {
    forall p :: p in b ==> (p in a && a[p] == b[p]) || (0 <= p < TOTAL_PAGES && t[p].present && t[p] == b[p])
  }

  /** Page `p` is mapped and no stale translation of it is cached. */
  ghost predicate Settled(tlb: map<FrameNo, Pte>, t: Table, p: FrameNo) {
    t[p].present && (p in tlb ==> tlb[p] == t[p])
  }

  /** The first `n` bytes are copied. */
  ghost predicate SoFar(s: State, dest: nat, bs: seq<Byte>, n: nat, r: State) {
    n <= |bs| && dest + |bs| <= TOTAL_PAGES * PAGE_SIZE && r == CopyOut(s, dest, bs[..n])
  }

  lemma OneByteFurther(s: State, dest: nat, bs: seq<Byte>, n: nat, r: State)
    requires SoFar(s, dest, bs, n, r) && n < |bs|
    ensures SoFar(s, dest, bs, n + 1, Machine.Store(r, (dest + n) / PAGE_SIZE, (dest + n) % PAGE_SIZE, bs[n]))
  {
    assert bs[..n + 1][..n] == bs[..n];
  }

  function Overwrite(page: Page, off: nat, bs: seq<Byte>): Page
    requires off + |bs| <= PAGE_SIZE
  {
    page[..off] + bs + page[off + |bs|..]
  }

  /** Memory after `n` bytes at offset `so` of frame `sf` were written at offset `to` of `tf`. */
  function Copied(m: Memory, sf: FrameNo, so: nat, tf: FrameNo, to: nat, n: nat): Memory
    requires so + n <= PAGE_SIZE && to + n <= PAGE_SIZE
  {
    m[tf := Overwrite(m[tf], to, m[sf][so..so + n])]
  }

  /** Both ranges lie within one mapped page each, over different frames, with no stale
      translation of either cached. */
  ghost predicate Copyable(tlb: map<FrameNo, Pte>, t: Table, start: nat, dest: nat, size: nat) {
    && start / PAGE_SIZE < TOTAL_PAGES && start % PAGE_SIZE + size <= PAGE_SIZE
    && dest / PAGE_SIZE < TOTAL_PAGES && dest % PAGE_SIZE + size <= PAGE_SIZE
    && Settled(tlb, t, start / PAGE_SIZE) && Settled(tlb, t, dest / PAGE_SIZE)
    && t[start / PAGE_SIZE].frame != t[dest / PAGE_SIZE].frame
  }

  function AfterCopy(m: Memory, t: Table, start: nat, dest: nat, size: nat): Memory
    requires start / PAGE_SIZE < TOTAL_PAGES && start % PAGE_SIZE + size <= PAGE_SIZE
    requires dest / PAGE_SIZE < TOTAL_PAGES && dest % PAGE_SIZE + size <= PAGE_SIZE
  {
    Copied(m, t[start / PAGE_SIZE].frame, start % PAGE_SIZE, t[dest / PAGE_SIZE].frame, dest % PAGE_SIZE, size)
  }

  lemma CopiedNothing(m: Memory, sf: FrameNo, so: nat, tf: FrameNo, to: nat)
    requires so <= PAGE_SIZE && to <= PAGE_SIZE
    ensures Copied(m, sf, so, tf, to, 0) == m
  {
    assert Overwrite(m[tf], to, m[sf][so..so + 0]) == m[tf];
  }

  lemma CopiedMore(m: Memory, sf: FrameNo, so: nat, tf: FrameNo, to: nat, n: nat, k: nat)
    requires so + n + k <= PAGE_SIZE && to + n + k <= PAGE_SIZE && sf != tf
    ensures Copied(Copied(m, sf, so, tf, to, n), sf, so + n, tf, to + n, k) == Copied(m, sf, so, tf, to, n + k)
  {
    var once := Overwrite(m[tf], to, m[sf][so..so + n]);
    assert Overwrite(once, to + n, m[sf][so + n..so + n + k]) == Overwrite(m[tf], to, m[sf][so..so + n + k]);
  }

  lemma SamePage(addr: nat, n: nat)
    requires addr % PAGE_SIZE + n < PAGE_SIZE
    ensures (addr + n) / PAGE_SIZE == addr / PAGE_SIZE && (addr + n) % PAGE_SIZE == addr % PAGE_SIZE + n
  {
  }

  lemma {:induction false} WithoutAbsent(q: seq<Slot>, t: Slot)
    requires t !in q
    ensures Without(q, t) == q
  {
    if q != [] {
      WithoutAbsent(q[1..], t);
    }
  }

  lemma {:induction false} WithoutAt(q: seq<Slot>, k: nat)
    requires Distinct(q) && k < |q|
    ensures Without(q, q[k]) == q[..k] + q[k + 1..]
    ensures forall i :: i in q[..k] + q[k + 1..] <==> i in q && i != q[k]
  {
    if k == 0 {
      Pop(q);
      WithoutAbsent(q[1..], q[0]);
    } else {
      WithoutAt(q[1..], k - 1);
      assert q[..k] + q[k + 1..] == [q[0]] + (q[1..][..k - 1] + q[1..][k..]);
    }
  }
}
