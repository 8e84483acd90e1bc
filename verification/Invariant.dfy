/** What every kernel entry keeps, and hence what holds in every reachable state. */
module Invariant {
  import opened Layout
  import opened Frames
  import opened Machine

  // ----- the invariant

  predicate Live(free: seq<Slot>, idle: Slot, i: Slot) { i != idle && i !in free }

  function CodeFrame(k: int): int { NUM_PAG_KERNEL + 2 * k }

  predicate IsCode(f: int) { CodeFrame(0) <= f < CodeFrame(NUM_PAG_CODE) && f % 2 == 0 }

  function DataFrame(tables: Tables, i: Slot, k: int): FrameNo
    requires 0 <= k < NUM_PAG_DATA
  {
    tables[i][PAG_LOG_INIT_DATA + k].frame
  }

  /** Every slot is in exactly one place: free, ready, running or the parked idle task; the
      idle task is never queued and runs only when nothing else can. */
  ghost predicate Queues(free: seq<Slot>, ready: seq<Slot>, current: Slot, idle: Slot) {
    && Distinct(free) && Distinct(ready)
    && (forall i :: i in free ==> i !in ready && i != current && i != idle)
    && (forall i :: i in ready ==> i != current && i != idle)
    && (forall i: Slot :: i in free || i in ready || i == current || i == idle)
    && |free| + |ready| + (if current == idle then 1 else 2) == NR_TASKS
    && (current == idle ==> ready == [])
  }

  /** State fields, quanta and directories of the slots in use. */
  ghost predicate Scheduled(s: State) {
    && (forall i :: i in s.ready ==> s.tasks[i].state == Ready)
    && s.tasks[s.current].state == Run
    && (forall i: Slot :: i !in s.free ==> s.tasks[i].quantum >= 1 && s.tasks[i].dir == i)
    && 1 <= s.remaining <= s.tasks[s.current].quantum
  }

  /** Which frame each page of each table names, live or not. */
  ghost predicate Mappings(free: seq<Slot>, idle: Slot, tables: Tables) {
    && (forall i: Slot, p :: 0 <= p < NUM_PAG_KERNEL ==> tables[i][p].frame == p)
    && (forall i: Slot, p :: FIRST_TEMP <= p < TOTAL_PAGES ==> tables[i][p] == EMPTY)
    && (forall i: Slot, p :: Live(free, idle, i) && PAG_LOG_INIT_CODE <= p < PAG_LOG_INIT_DATA ==>
          tables[i][p].frame == CodeFrame(p - PAG_LOG_INIT_CODE) && tables[i][p].present)
    && (forall i: Slot, p :: Live(free, idle, i) && PAG_LOG_INIT_DATA <= p < FIRST_TEMP ==>
          tables[i][p] == Mapped(tables[i][p].frame))
    && (forall i: Slot, p :: !Live(free, idle, i) && PAG_LOG_INIT_DATA <= p < FIRST_TEMP ==> tables[i][p] == EMPTY)
  }

  /** Some live process has frame `f` behind one of its data pages. */
  ghost predicate Owned(free: seq<Slot>, idle: Slot, tables: Tables, f: FrameNo) {
    exists i: Slot, k :: Live(free, idle, i) && 0 <= k < NUM_PAG_DATA && DataFrame(tables, i, k) == f
  }

  /** The kernel frames, the shared code frames and the data frames of live processes. */
  ghost predicate Needed(free: seq<Slot>, idle: Slot, tables: Tables, f: FrameNo) {
    f < NUM_PAG_KERNEL || IsCode(f) || Owned(free, idle, tables, f)
  }

  /** Every needed frame is marked used, and no data frame is behind two (process, page) pairs.
      Other frames may be in use as well, down to none being left. */
  ghost predicate Ownership(free: seq<Slot>, idle: Slot, tables: Tables, phys: Phys) {
    && (forall f: FrameNo :: Needed(free, idle, tables, f) ==> phys[f])
    && (forall i: Slot, k :: Live(free, idle, i) && 0 <= k < NUM_PAG_DATA ==>
          DataFrame(tables, i, k) > NUM_PAG_KERNEL && !IsCode(DataFrame(tables, i, k)))
    && (forall i: Slot, k, j: Slot, l ::
          Live(free, idle, i) && 0 <= k < NUM_PAG_DATA && Live(free, idle, j) && 0 <= l < NUM_PAG_DATA ==>
          DataFrame(tables, i, k) == DataFrame(tables, j, l) ==> i == j && k == l)
  }

  /** No frame is in use that is not needed. */
  ghost predicate NoneLost(free: seq<Slot>, idle: Slot, tables: Tables, phys: Phys) {
    forall f: FrameNo :: phys[f] ==> Needed(free, idle, tables, f)
  }

  /** CR3 is the running process's directory, both entry paths lead to its kernel stack, and every
      cached translation is its current one. */
  ghost predicate MmuAgrees(s: State) {
    && s.cr3 == s.current && s.tss == s.current && s.msr == s.current
    && (forall p: FrameNo :: p in s.tlb ==> s.tables[s.current][p].present && s.tlb[p] == s.tables[s.current][p])
  }

  /** The structural invariant. It leaves open how many frames are in use, so it holds of states
      in which a fork runs out of frames. */
  ghost predicate Core(s: State) {
    && Queues(s.free, s.ready, s.current, s.idle)
    && Scheduled(s)
    && Mappings(s.free, s.idle, s.tables)
    && Ownership(s.free, s.idle, s.tables, s.phys)
    && MmuAgrees(s)
    && (forall f :: f in s.structures ==> f < NUM_PAG_KERNEL)
  }

  function LiveCount(s: State): int { |s.ready| + if s.current == s.idle then 0 else 1 }

  ghost predicate Capacity(s: State) {
    UsedFrom(s.phys, NUM_PAG_KERNEL) == NUM_PAG_CODE + NUM_PAG_DATA * LiveCount(s)
  }

  ghost predicate Pids(s: State) {
    && s.lastPid >= FIRST_PID
    && s.tasks[s.idle].pid == 0
    && (forall i :: i in s.free ==> s.tasks[i].pid == -1)
    && (forall i: Slot :: Live(s.free, s.idle, i) ==> 1 <= s.tasks[i].pid <= s.lastPid)
    && (forall i: Slot, j: Slot ::
          Live(s.free, s.idle, i) && Live(s.free, s.idle, j) && s.tasks[i].pid == s.tasks[j].pid ==> i == j)
  }

  /** Nobody sets a quantum of its own. */
  ghost predicate Quanta(s: State) { forall i: Slot :: i !in s.free ==> s.tasks[i].quantum == DEFAULT_QUANTUM }

  /** All accumulated ticks of a record are the time since its last `init_stats`, modulo 2^32. */
  predicate Conserved(st: Stats, start: Word) {
    (st.user + st.system + st.blocked + st.ready - (st.elapsed - start)) % WORD == 0
  }

  ghost predicate Accounts(s: State) {
    forall i: Slot :: Conserved(s.tasks[i].stats, s.start[i])
  }

  ghost predicate Exact(s: State) { NoneLost(s.free, s.idle, s.tables, s.phys) }

  ghost predicate Inv(s: State) {
    Core(s) && Exact(s) && Capacity(s) && Pids(s) && Quanta(s) && Accounts(s)
  }

  // ----- queues

  lemma Push(q: seq<Slot>, x: Slot)
    requires Distinct(q) && x !in q
    ensures Distinct(q + [x])
    ensures forall i :: i in q + [x] <==> i in q || i == x
  {
    var r := q + [x];
    forall i, j | 0 <= i < j < |r| ensures r[i] != r[j] {
      assert r[i] == q[i] && q[i] in q;
    }
  }

  lemma Pop(q: seq<Slot>)
    requires Distinct(q) && q != []
    ensures Distinct(q[1..]) && q[0] in q && q[0] !in q[1..]
    ensures forall i :: i in q <==> i in q[1..] || i == q[0]
  {
    assert q == [q[0]] + q[1..];
  }

  lemma RotateKeepsQueues(free: seq<Slot>, ready: seq<Slot>, current: Slot, idle: Slot)
    requires Queues(free, ready, current, idle) && current != idle
    ensures var q := ready + [current]; Queues(free, q[1..], q[0], idle)
  {
    Push(ready, current);
    Pop(ready + [current]);
  }

  lemma AdmitKeepsQueues(free: seq<Slot>, ready: seq<Slot>, current: Slot, idle: Slot)
    requires Queues(free, ready, current, idle) && current != idle && free != []
    ensures Queues(free[1..], ready + [free[0]], current, idle)
    ensures Queues(free[1..] + [free[0]], ready, current, idle)
  {
    Pop(free);
    Push(ready, free[0]);
    Push(free[1..], free[0]);
  }

  lemma RetireKeepsQueues(free: seq<Slot>, ready: seq<Slot>, current: Slot, idle: Slot)
    requires Queues(free, ready, current, idle) && current != idle
    ensures ready != [] ==> Queues(free + [current], ready[1..], ready[0], idle)
    ensures ready == [] ==> Queues(free + [current], [], idle, idle)
  {
    Push(free, current);
    if ready != [] {
      Pop(ready);
    }
  }

  // ----- scheduling data

  /** The hand-over touches only the state of the starting task and two statistics records. */
  lemma HandoverKeeps(tasks: Tasks, leaver: Slot, t: Slot, t2: Word, t3: Word, i: Slot)
    ensures var h := Handover(tasks, leaver, t, t2, t3)[i];
      && h.pid == tasks[i].pid && h.dir == tasks[i].dir && h.quantum == tasks[i].quantum
      && h.state == if i == t then Run else tasks[i].state
  {
  }

  /** The running task goes to the tail and the head of the queue (possibly itself) starts. */
  lemma YieldRotates(s: State, t1: Word, t2: Word, t3: Word)
    requires Core(s) && s.current != s.idle
    ensures var q := s.ready + [s.current]; var r := Yield(s, t1, t2, t3);
      && r.current == q[0] && r.ready == q[1..] && r.remaining == s.tasks[q[0]].quantum
      && r.free == s.free && r.idle == s.idle && r.tables == s.tables && r.phys == s.phys && r.mem == s.mem
      && r.cr3 == s.tasks[q[0]].dir && r.tlb == map[] && r.tss == q[0] && r.msr == q[0]
      && r.structures == s.structures && r.lastPid == s.lastPid && r.start == s.start
      && (forall i: Slot :: && r.tasks[i].pid == s.tasks[i].pid && r.tasks[i].dir == s.tasks[i].dir
                            && r.tasks[i].quantum == s.tasks[i].quantum
                            && r.tasks[i].state == if i == q[0] then Run else if i == s.current then Ready
                                                   else s.tasks[i].state)
  {
    var s1 := Requeue(s, s.current, t1);
    assert s1.ready == s.ready + [s.current];
    forall i: Slot {
      HandoverKeeps(s1.tasks, s1.current, Chosen(s1), t2, t3, i);
    }
  }

  lemma YieldKeepsCore(s: State, t1: Word, t2: Word, t3: Word)
    requires Core(s) && s.current != s.idle
    ensures var r := Yield(s, t1, t2, t3); Core(r) && (Exact(s) ==> Exact(r))
  {
    YieldRotates(s, t1, t2, t3);
    RotateKeepsQueues(s.free, s.ready, s.current, s.idle);
    Push(s.ready, s.current);
    Pop(s.ready + [s.current]);
  }

  /** A clock tick either counts down, restarts the quantum of a task that is alone, or does
      what a yield at the end of the quantum does. */
  lemma TickCases(s: State, t1: Word, t2: Word, t3: Word)
    requires Core(s)
    ensures var r := Tick(s, t1, t2, t3);
      if s.remaining > 1 then r == s.(remaining := s.remaining - 1)
      else if s.ready == [] then r == s.(remaining := s.tasks[s.current].quantum)
      else s.current != s.idle && r == Yield(s, t1, t2, t3)
  {
  }

  lemma TickKeepsCore(s: State, t1: Word, t2: Word, t3: Word)
    requires Core(s)
    ensures var r := Tick(s, t1, t2, t3); Core(r) && (Exact(s) ==> Exact(r))
  {
    TickCases(s, t1, t2, t3);
    if s.remaining == 1 && s.ready != [] {
      YieldKeepsCore(s, t1, t2, t3);
    }
  }

  // ----- exit

  lemma ExitShape(s: State, t2: Word, t3: Word)
    requires Core(s) && s.current != s.idle
    ensures var r := Exit(s, t2, t3); var t := Chosen(s);
      && r.current == t && r.remaining == s.tasks[t].quantum
      && r.ready == (if s.ready == [] then [] else s.ready[1..])
      && r.free == s.free + [s.current] && r.idle == s.idle && r.mem == s.mem
      && r.phys == Release(s.phys, DataFrames(s.tables[s.current]))
      && r.tables == s.tables[s.current := ClearData(s.tables[s.current], NUM_PAG_DATA)]
      && r.cr3 == s.tasks[t].dir && r.tlb == map[] && r.tss == t && r.msr == t
      && r.structures == s.structures && r.lastPid == s.lastPid && r.start == s.start
      && (forall i: Slot :: && r.tasks[i].pid == (if i == s.current then -1 else s.tasks[i].pid)
                            && r.tasks[i].dir == s.tasks[i].dir && r.tasks[i].quantum == s.tasks[i].quantum
                            && r.tasks[i].state == if i == t then Run else s.tasks[i].state)
  {
    var s1 := Vacate(s);
    forall i: Slot {
      HandoverKeeps(s1.tasks, s1.current, Chosen(s1), t2, t3, i);
    }
  }

  lemma ExitLive(s: State)
    requires Core(s) && s.current != s.idle
    ensures var r := Vacate(s);
      && (forall i: Slot :: Live(r.free, r.idle, i) <==> Live(s.free, s.idle, i) && i != s.current)
      && (forall i: Slot :: i != s.current ==> r.tables[i] == s.tables[i])
      && (forall p: FrameNo :: !(PAG_LOG_INIT_DATA <= p < FIRST_TEMP) ==>
            r.tables[s.current][p] == s.tables[s.current][p])
  {
    Push(s.free, s.current);
  }

  lemma ExitKeepsOwnership(s: State)
    requires Core(s) && s.current != s.idle
    ensures var r := Vacate(s); Ownership(r.free, r.idle, r.tables, r.phys) && (Exact(s) ==> Exact(r))
  {
    var r := Vacate(s);
    var fs := DataFrames(s.tables[s.current]);
    ExitLive(s);
    assert forall i: Slot, k :: 0 <= k < NUM_PAG_DATA && i != s.current ==>
      DataFrame(r.tables, i, k) == DataFrame(s.tables, i, k);
    assert forall k :: 0 <= k < NUM_PAG_DATA ==> fs[k] == DataFrame(s.tables, s.current, k);
    forall f: FrameNo
      ensures Needed(r.free, r.idle, r.tables, f) ==> r.phys[f]
      ensures Exact(s) && r.phys[f] ==> Needed(r.free, r.idle, r.tables, f)
    {
      ReleaseAt(s.phys, fs, f);
      if Exact(s) && r.phys[f] {
        assert Needed(s.free, s.idle, s.tables, f);
      }
      if Needed(r.free, r.idle, r.tables, f) {
        assert Needed(s.free, s.idle, s.tables, f);
      }
    }
  }

  lemma ExitKeepsMappings(s: State)
    requires Core(s) && s.current != s.idle
    ensures var r := Vacate(s); Mappings(r.free, r.idle, r.tables)
  {
    ExitLive(s);
  }

  lemma ExitKeepsCore(s: State, t2: Word, t3: Word)
    requires Core(s) && s.current != s.idle
    ensures var r := Exit(s, t2, t3); Core(r) && (Exact(s) ==> Exact(r))
  {
    ExitShape(s, t2, t3);
    ExitKeepsMappings(s);
    ExitKeepsOwnership(s);
    RetireKeepsQueues(s.free, s.ready, s.current, s.idle);
    if s.ready != [] {
      Pop(s.ready);
    }
  }

  // ----- fork

  lemma ForkLive(s: State, fs: seq<FrameNo>, t1: Word, t2: Word)
    requires Core(s) && s.current != s.idle && s.free != [] && |fs| == NUM_PAG_DATA
    ensures var c := s.free[0]; var r := ForkChild(s, c, fs, t1, t2);
      && (forall i: Slot :: Live(r.free, r.idle, i) <==> Live(s.free, s.idle, i) || i == c)
      && (forall i: Slot :: i != c ==> r.tables[i] == s.tables[i])
      && c != s.current && Live(s.free, s.idle, s.current)
      && (forall p :: 0 <= p < PAG_LOG_INIT_DATA ==> r.tables[c][p] == Mapped(s.tables[s.current][p].frame))
      && (forall p :: PAG_LOG_INIT_DATA <= p < FIRST_TEMP ==> r.tables[c][p] == Mapped(fs[p - PAG_LOG_INIT_DATA]))
      && (forall p :: FIRST_TEMP <= p < TOTAL_PAGES ==> r.tables[c][p] == s.tables[c][p])
  {
    Pop(s.free);
    ChildTable(s.tables[s.free[0]], s.tables[s.current], fs);
  }

  lemma ForkKeepsMappings(s: State, fs: seq<FrameNo>, t1: Word, t2: Word)
    requires Core(s) && s.current != s.idle && s.free != [] && |fs| == NUM_PAG_DATA
    ensures var r := ForkChild(s, s.free[0], fs, t1, t2); Mappings(r.free, r.idle, r.tables)
  {
    ForkLive(s, fs, t1, t2);
  }

  lemma ForkKeepsOwnership(s: State, fs: seq<FrameNo>, t1: Word, t2: Word)
    requires Core(s) && s.current != s.idle && s.free != []
    requires Fresh(s.phys, fs, NUM_PAG_DATA) && |fs| == NUM_PAG_DATA
    ensures var r := ForkChild(s, s.free[0], fs, t1, t2);
      Ownership(r.free, r.idle, r.tables, r.phys) && (Exact(s) ==> Exact(r))
  {
    var c := s.free[0];
    var r := ForkChild(s, c, fs, t1, t2);
    ForkLive(s, fs, t1, t2);
    assert forall i: Slot, k :: 0 <= k < NUM_PAG_DATA ==>
      DataFrame(r.tables, i, k) == if i == c then fs[k] else DataFrame(s.tables, i, k);
    forall k | 0 <= k < NUM_PAG_DATA
      ensures !Needed(s.free, s.idle, s.tables, fs[k]) && fs[k] != NUM_PAG_KERNEL
    {
      assert Visited(fs[k]) && !s.phys[fs[k]];
      assert s.phys[NUM_PAG_KERNEL] by { assert Needed(s.free, s.idle, s.tables, NUM_PAG_KERNEL); }
    }
    forall f: FrameNo
      ensures Needed(r.free, r.idle, r.tables, f) ==> r.phys[f]
      ensures Exact(s) && r.phys[f] ==> Needed(r.free, r.idle, r.tables, f)
    {
      MarkAt(s.phys, fs, f);
      if f in fs {
        var k :| 0 <= k < NUM_PAG_DATA && fs[k] == f;
        assert DataFrame(r.tables, c, k) == f;
      } else {
        assert Needed(r.free, r.idle, r.tables, f) <==> Needed(s.free, s.idle, s.tables, f);
      }
    }
  }

  lemma ChildTable(t: Table, parent: Table, fs: seq<FrameNo>)
    requires |fs| == NUM_PAG_DATA
    ensures var u := ShareLow(MapData(t, fs), parent, PAG_LOG_INIT_DATA);
      && (forall p :: 0 <= p < PAG_LOG_INIT_DATA ==> u[p] == Mapped(parent[p].frame))
      && (forall p :: PAG_LOG_INIT_DATA <= p < FIRST_TEMP ==> u[p] == Mapped(fs[p - PAG_LOG_INIT_DATA]))
      && (forall p :: FIRST_TEMP <= p < TOTAL_PAGES ==> u[p] == t[p])
  {
  }

  lemma ForkChildKeepsCore(s: State, fs: seq<FrameNo>, t1: Word, t2: Word)
    requires Core(s) && s.current != s.idle && s.free != []
    requires Fresh(s.phys, fs, NUM_PAG_DATA) && |fs| == NUM_PAG_DATA
    ensures var r := ForkChild(s, s.free[0], fs, t1, t2); Core(r) && (Exact(s) ==> Exact(r))
  {
    ForkKeepsMappings(s, fs, t1, t2);
    ForkKeepsOwnership(s, fs, t1, t2);
    AdmitKeepsQueues(s.free, s.ready, s.current, s.idle);
    Pop(s.free);
    Push(s.ready, s.free[0]);
  }

  /** A fork that runs out of frames changes nothing but the order of the free queue and the
      contents of the slot it hands back: the bytemap is restored although `free_frame` never
      releases frame 256, because that frame holds code. */
  lemma ForkUndoRestores(s: State)
    requires Core(s) && s.current != s.idle && s.free != []
    ensures var fs := Allocated(s.phys, NUM_PAG_DATA); var c := s.free[0]; var r := ForkUndo(s, c, fs);
      && r.phys == s.phys && r.mem == s.mem && r.ready == s.ready && r.lastPid == s.lastPid
      && r.current == s.current && r.remaining == s.remaining && r.cr3 == s.cr3 && r.tlb == s.tlb
      && r.free == s.free[1..] + [c]
      && (forall i: Slot :: i != c ==> r.tables[i] == s.tables[i] && r.tasks[i] == s.tasks[i])
  {
    assert s.phys[NUM_PAG_KERNEL] by { assert Needed(s.free, s.idle, s.tables, NUM_PAG_KERNEL); }
    ReleaseUndoesAllocation(s.phys, NUM_PAG_DATA);
  }

  lemma ForkUndoKeepsCore(s: State)
    requires Core(s) && s.current != s.idle && s.free != []
    ensures var r := ForkUndo(s, s.free[0], Allocated(s.phys, NUM_PAG_DATA)); Core(r) && (Exact(s) ==> Exact(r))
  {
    var c := s.free[0];
    var r := ForkUndo(s, c, Allocated(s.phys, NUM_PAG_DATA));
    ForkUndoRestores(s);
    AdmitKeepsQueues(s.free, s.ready, s.current, s.idle);
    Pop(s.free);
    Push(s.free[1..], c);
    assert forall i: Slot :: Live(r.free, r.idle, i) <==> Live(s.free, s.idle, i);
    assert forall i: Slot, k :: Live(s.free, s.idle, i) && 0 <= k < NUM_PAG_DATA ==>
      DataFrame(r.tables, i, k) == DataFrame(s.tables, i, k);
    assert forall f: FrameNo :: Owned(r.free, r.idle, r.tables, f) <==> Owned(s.free, s.idle, s.tables, f);
    assert forall f: FrameNo :: Needed(r.free, r.idle, r.tables, f) <==> Needed(s.free, s.idle, s.tables, f);
  }

  lemma ForkKeepsCore(s: State, t1: Word, t2: Word)
    requires Core(s) && s.current != s.idle
    ensures var r := Fork(s, t1, t2).0; Core(r) && (Exact(s) ==> Exact(r))
  {
    if s.free != [] {
      var fs := Allocated(s.phys, NUM_PAG_DATA);
      AllocatedFresh(s.phys, NUM_PAG_DATA);
      if |fs| < NUM_PAG_DATA {
        ForkUndoKeepsCore(s);
      } else {
        ForkChildKeepsCore(s, fs, t1, t2);
      }
    }
  }

  // ----- every event

  lemma {:induction false} CopyOutShape(s: State, addr: nat, bs: seq<Byte>)
    requires addr + |bs| <= TOTAL_PAGES * PAGE_SIZE
    ensures var r := CopyOut(s, addr, bs); r == s.(mem := r.mem, tlb := r.tlb)
    decreases |bs|
  {
    if bs != [] {
      CopyOutShape(s, addr, bs[..|bs| - 1]);
    }
  }

  /** Every cached translation was cached before or is one of table `t`. */
  ghost predicate TlbFrom(before: map<FrameNo, Pte>, t: Table, tlb: map<FrameNo, Pte>) {
    forall p :: p in tlb ==>
      (p in before && tlb[p] == before[p]) || (0 <= p < TOTAL_PAGES && tlb[p] == t[p] && tlb[p].present)
  }

  /** The buffer lies in pages that every process has mapped. */
  predicate InUserPages(addr: int, size: nat) { PAG_LOG_INIT_CODE * PAGE_SIZE <= addr && Fits(addr, size) }

  lemma {:induction false} CopyOutTlb(s: State, addr: nat, bs: seq<Byte>)
    requires Core(s) && s.current != s.idle && InUserPages(addr, |bs|)
    ensures TlbFrom(s.tlb, s.tables[s.cr3], CopyOut(s, addr, bs).tlb)
    decreases |bs|
  {
    if bs != [] {
      var n := |bs| - 1;
      CopyOutTlb(s, addr, bs[..n]);
      CopyOutShape(s, addr, bs[..n]);
      StoreTlb(s, CopyOut(s, addr, bs[..n]), addr + n, bs[n]);
    }
  }

  /** The store of one more byte caches nothing but the entry of its page. */
  lemma StoreTlb(s: State, r: State, a: nat, b: Byte)
    requires Core(s) && s.current != s.idle && InUserPages(a, 1)
    requires r.tables == s.tables && r.cr3 == s.cr3 && TlbFrom(s.tlb, s.tables[s.cr3], r.tlb)
    ensures TlbFrom(s.tlb, s.tables[s.cr3], Store(r, a / PAGE_SIZE, a % PAGE_SIZE, b).tlb)
  {
    UserPagePresent(s, s.current, a / PAGE_SIZE);
  }

  lemma UserPagePresent(s: State, i: Slot, page: FrameNo)
    requires Core(s) && Live(s.free, s.idle, i) && PAG_LOG_INIT_CODE <= page < FIRST_TEMP
    ensures s.tables[i][page].present
  {
    assert page >= PAG_LOG_INIT_DATA ==> s.tables[i][page] == Mapped(s.tables[i][page].frame);
  }

  /** `sys_get_stats` changes a record's `remaining` at most, and what its copy changes. */
  lemma GetStatsShape(s: State, pid: int, st: Word)
    ensures var r := GetStats(s, pid, st).0;
      && r == s.(tasks := r.tasks, mem := r.mem, tlb := r.tlb)
      && (forall i: Slot :: var z := s.tasks[i].stats;
            r.tasks[i] == s.tasks[i].(stats := z.(remaining := r.tasks[i].stats.remaining)))
  {
    var i := FindPid(s.tasks, pid, 0);
    if GetStats(s, pid, st).1.Found? {
      var rec := s.tasks[i].stats.(remaining := s.remaining % WORD);
      CopyOutShape(s.(tasks := s.tasks[i := s.tasks[i].(stats := rec)]), st, RecordBytes(rec));
    }
  }

  lemma GetStatsTlb(s: State, pid: int, st: Word)
    requires Core(s) && s.current != s.idle
    ensures TlbFrom(s.tlb, s.tables[s.cr3], GetStats(s, pid, st).0.tlb)
  {
    var i := FindPid(s.tasks, pid, 0);
    if GetStats(s, pid, st).1.Found? {
      var rec := s.tasks[i].stats.(remaining := s.remaining % WORD);
      CopyOutTlb(s.(tasks := s.tasks[i := s.tasks[i].(stats := rec)]), st, RecordBytes(rec));
    }
  }

  /** Events that move no task and no mapping. */
  predicate Light(e: Event) {
    e.Statting? || e.Polling? || e.Storing? || e.Caching? || e.Evicting? || e.Entering? || e.Leaving?
  }

  /** Events that can write to memory. */
  predicate Writes(e: Event) { e.Statting? || e.Polling? || e.Storing? }

  lemma LightShape(s: State, e: Event)
    requires Light(e)
    ensures var r := Next(s, e);
      && r == s.(tasks := r.tasks, mem := r.mem, tlb := r.tlb)
      && (!Writes(e) ==> r.mem == s.mem)
      && (forall i: Slot :: r.tasks[i] == s.tasks[i].(stats := r.tasks[i].stats))
  {
    if e.Statting? {
      GetStatsShape(s, e.pid, e.st);
    } else if e.Polling? {
      PollKeysShape(s, e.addr, e.keys);
    }
  }

  lemma PollKeysShape(s: State, addr: Word, keys: Keys)
    ensures var r := PollKeys(s, addr, keys).0; r == s.(mem := r.mem, tlb := r.tlb)
  {
    if PollKeys(s, addr, keys).1.Found? {
      CopyOutShape(s, addr, keys);
    }
  }

  lemma LightStep(s: State, e: Event)
    requires Core(s) && Light(e)
    ensures var r := Next(s, e);
      && r == s.(tasks := r.tasks, mem := r.mem, tlb := r.tlb)
      && (!Writes(e) ==> r.mem == s.mem)
      && (forall i: Slot :: r.tasks[i] == s.tasks[i].(stats := r.tasks[i].stats))
      && TlbFrom(s.tlb, s.tables[s.cr3], r.tlb)
  {
    LightShape(s, e);
    if e.Statting? && Enabled(s, e) {
      GetStatsTlb(s, e.pid, e.st);
    } else if e.Polling? && Enabled(s, e) && PollKeys(s, e.addr, e.keys).1.Found? {
      CopyOutTlb(s, e.addr, e.keys);
    }
  }

  /** The structural invariant survives every event, however many frames are left. */
  lemma NextKeepsCore(s: State, e: Event)
    requires Core(s)
    ensures var r := Next(s, e); Core(r) && (Exact(s) ==> Exact(r))
  {
    if Enabled(s, e) {
      match e
      case Clock(t1, t2, t3) => TickKeepsCore(s, t1, t2, t3);
      case Forking(t1, t2) => ForkKeepsCore(s, t1, t2);
      case Exiting(t2, t3) => ExitKeepsCore(s, t2, t3);
      case Yielding(t1, t2, t3) => YieldKeepsCore(s, t1, t2, t3);
      case _ => LightStep(s, e);
    }
  }

  // ----- capacity and process identifiers

  /** With a slot free, at most 168 of the 384 reachable frames are in use, so the twenty
      allocations of a fork succeed. */
  lemma ForkHasRoom(s: State)
    requires Core(s) && Capacity(s) && s.free != []
    ensures |Allocated(s.phys, NUM_PAG_DATA)| == NUM_PAG_DATA
    ensures UsedFrom(s.phys, NUM_PAG_KERNEL) <= 168
  {
    AllocationSucceeds(s.phys, NUM_PAG_DATA);
  }

  lemma ForkKeepsCapacity(s: State, t1: Word, t2: Word)
    requires Core(s) && Capacity(s) && s.current != s.idle
    ensures Capacity(Fork(s, t1, t2).0)
  {
    if s.free != [] {
      ForkHasRoom(s);
      AllocatedFresh(s.phys, NUM_PAG_DATA);
      MarkCount(s.phys, Allocated(s.phys, NUM_PAG_DATA));
    }
  }

  lemma ForkKeepsPids(s: State, t1: Word, t2: Word)
    requires Queues(s.free, s.ready, s.current, s.idle) && Pids(s) && s.current != s.idle
    requires |Allocated(s.phys, NUM_PAG_DATA)| == NUM_PAG_DATA
    ensures Pids(Fork(s, t1, t2).0)
  {
    if s.free != [] {
      Pop(s.free);
      var r := Fork(s, t1, t2).0;
      assert forall i: Slot :: Live(r.free, r.idle, i) <==> Live(s.free, s.idle, i) || i == s.free[0];
      assert forall i: Slot :: r.tasks[i].pid == if i == s.free[0] then s.lastPid + 1 else s.tasks[i].pid;
    }
  }

  lemma ForkKeepsCounts(s: State, t1: Word, t2: Word)
    requires Core(s) && Capacity(s) && Pids(s) && s.current != s.idle
    ensures var r := Fork(s, t1, t2).0; Capacity(r) && Pids(r)
  {
    ForkKeepsCapacity(s, t1, t2);
    if s.free != [] {
      ForkHasRoom(s);
      ForkKeepsPids(s, t1, t2);
    }
  }

  lemma ExitKeepsCapacity(s: State)
    requires Core(s) && Capacity(s) && s.current != s.idle
    ensures UsedFrom(Vacate(s).phys, NUM_PAG_KERNEL) == NUM_PAG_CODE + NUM_PAG_DATA * (LiveCount(s) - 1)
  {
    var fs := DataFrames(s.tables[s.current]);
    assert Live(s.free, s.idle, s.current);
    forall k | 0 <= k < NUM_PAG_DATA
      ensures fs[k] == DataFrame(s.tables, s.current, k) && fs[k] > NUM_PAG_KERNEL && s.phys[fs[k]]
    {
      assert Owned(s.free, s.idle, s.tables, DataFrame(s.tables, s.current, k));
    }
    assert Distinct(fs);
    ReleaseCount(s.phys, fs);
  }

  lemma ExitKeepsCounts(s: State, t2: Word, t3: Word)
    requires Core(s) && Capacity(s) && Pids(s) && s.current != s.idle
    ensures var r := Exit(s, t2, t3); Capacity(r) && Pids(r)
  {
    ExitShape(s, t2, t3);
    ExitKeepsCapacity(s);
    Push(s.free, s.current);
    if s.ready != [] {
      Pop(s.ready);
    }
    var r := Exit(s, t2, t3);
    assert LiveCount(r) == LiveCount(s) - 1;
    assert forall i: Slot :: Live(r.free, r.idle, i) <==> Live(s.free, s.idle, i) && i != s.current;
  }

  lemma YieldKeepsCounts(s: State, t1: Word, t2: Word, t3: Word)
    requires Core(s) && Capacity(s) && Pids(s) && s.current != s.idle
    ensures var r := Yield(s, t1, t2, t3); Capacity(r) && Pids(r)
  {
    YieldRotates(s, t1, t2, t3);
    Push(s.ready, s.current);
    Pop(s.ready + [s.current]);
  }

  lemma TickKeepsCounts(s: State, t1: Word, t2: Word, t3: Word)
    requires Core(s) && Capacity(s) && Pids(s)
    ensures var r := Tick(s, t1, t2, t3); Capacity(r) && Pids(r)
  {
    TickCases(s, t1, t2, t3);
    if s.current != s.idle {
      YieldKeepsCounts(s, t1, t2, t3);
    }
  }

  lemma LightKeepsCounts(s: State, e: Event)
    requires Capacity(s) && Pids(s) && Light(e)
    ensures var r := Next(s, e); Capacity(r) && Pids(r)
  {
    LightShape(s, e);
  }

  lemma NextKeepsCounts(s: State, e: Event)
    requires Core(s) && Capacity(s) && Pids(s)
    ensures var r := Next(s, e); Capacity(r) && Pids(r)
  {
    if Enabled(s, e) {
      match e
      case Clock(t1, t2, t3) =>
        TickKeepsCounts(s, t1, t2, t3);
      case Forking(t1, t2) => ForkKeepsCounts(s, t1, t2);
      case Exiting(t2, t3) => ExitKeepsCounts(s, t2, t3);
      case Yielding(t1, t2, t3) => YieldKeepsCounts(s, t1, t2, t3);
      case _ => LightKeepsCounts(s, e);
    }
  }

  lemma NextKeepsQuanta(s: State, e: Event)
    requires Core(s) && Quanta(s)
    ensures Quanta(Next(s, e))
  {
    if Enabled(s, e) {
      match e
      case Clock(t1, t2, t3) =>
        TickCases(s, t1, t2, t3);
        if s.current != s.idle {
          YieldRotates(s, t1, t2, t3);
        }
      case Forking(t1, t2) =>
        if s.free != [] {
          Pop(s.free);
        }
      case Exiting(t2, t3) => ExitShape(s, t2, t3);
      case Yielding(t1, t2, t3) => YieldRotates(s, t1, t2, t3);
      case _ => LightShape(s, e);
    }
  }

  // ----- tick conservation

  lemma AccrueConserves(rest: int, v: Word, elapsed: Word, start: Word, now: Word)
    requires (rest + v - (elapsed - start)) % WORD == 0
    ensures (rest + Accrue(v, elapsed, now) - (now - start)) % WORD == 0
  {
    var x := v + now - elapsed;
    assert x == x / WORD * WORD + x % WORD;
    assert rest + x % WORD - (now - start) == (rest + v - (elapsed - start)) - x / WORD * WORD;
  }

  lemma ChargeConserves(t: Task, start: Word, now: Word)
    requires Conserved(t.stats, start)
    ensures Conserved(ChargeUser(t, now).stats, start)
    ensures Conserved(ChargeSystem(t, now).stats, start)
    ensures Conserved(ChargeReady(t, now).stats, start)
  {
    var st := t.stats;
    AccrueConserves(st.system + st.blocked + st.ready, st.user, st.elapsed, start, now);
    AccrueConserves(st.user + st.blocked + st.ready, st.system, st.elapsed, start, now);
    AccrueConserves(st.user + st.system + st.blocked, st.ready, st.elapsed, start, now);
  }

  lemma DispatchKeepsAccounts(s: State, t2: Word, t3: Word)
    requires Accounts(s)
    ensures Accounts(Dispatch(s, t2, t3))
  {
    var t := Chosen(s);
    var a: Tasks := s.tasks[t := s.tasks[t].(state := Run)];
    ChargeConserves(a[s.current], s.start[s.current], t2);
    var b: Tasks := a[s.current := ChargeSystem(a[s.current], t2)];
    ChargeConserves(b[t], s.start[t], t3);
  }

  lemma RequeueKeepsAccounts(s: State, t: Slot, t1: Word)
    requires Accounts(s)
    ensures Accounts(Requeue(s, t, t1))
  {
    ChargeConserves(s.tasks[t], s.start[t], t1);
  }

  lemma TickKeepsAccounts(s: State, t1: Word, t2: Word, t3: Word)
    requires Accounts(s)
    ensures Accounts(Tick(s, t1, t2, t3)) && Accounts(Yield(s, t1, t2, t3))
  {
    var s1 := s.(remaining := s.remaining - 1);
    RequeueKeepsAccounts(s1, s1.current, t1);
    DispatchKeepsAccounts(Requeue(s1, s1.current, t1), t2, t3);
    RequeueKeepsAccounts(s, s.current, t1);
    DispatchKeepsAccounts(Requeue(s, s.current, t1), t2, t3);
  }

  lemma ForkKeepsAccounts(s: State, t1: Word, t2: Word)
    requires Accounts(s)
    ensures Accounts(Fork(s, t1, t2).0)
  {
    if s.free != [] {
      var fs := Allocated(s.phys, NUM_PAG_DATA);
      var c := s.free[0];
      var r := if |fs| < NUM_PAG_DATA then ForkUndo(s, c, fs) else ForkChild(s, c, fs, t1, t2);
      forall i: Slot ensures Conserved(r.tasks[i].stats, r.start[i]) {
        assert Conserved(s.tasks[i].stats, s.start[i]) && Conserved(s.tasks[s.current].stats, s.start[s.current]);
      }
    }
  }

  lemma LightKeepsAccounts(s: State, e: Event)
    requires Accounts(s) && Light(e)
    ensures Accounts(Next(s, e))
  {
    match e
    case Statting(pid, st) => GetStatsShape(s, pid, st);
    case Polling(addr, keys) => PollKeysShape(s, addr, keys);
    case Entering(t) => ChargeConserves(s.tasks[s.current], s.start[s.current], t);
    case Leaving(t) => ChargeConserves(s.tasks[s.current], s.start[s.current], t);
    case _ =>
  }

  lemma NextKeepsAccounts(s: State, e: Event)
    requires Accounts(s)
    ensures Accounts(Next(s, e))
  {
    if Enabled(s, e) {
      match e
      case Clock(t1, t2, t3) => TickKeepsAccounts(s, t1, t2, t3);
      case Forking(t1, t2) => ForkKeepsAccounts(s, t1, t2);
      case Exiting(t2, t3) => DispatchKeepsAccounts(Vacate(s), t2, t3);
      case Yielding(t1, t2, t3) => TickKeepsAccounts(s, t1, t2, t3);
      case _ => LightKeepsAccounts(s, e);
    }
  }

  // ----- whole runs

  lemma NextKeepsInv(s: State, e: Event)
    requires Inv(s)
    ensures Inv(Next(s, e))
  {
    NextKeepsCore(s, e);
    NextKeepsCounts(s, e);
    NextKeepsQuanta(s, e);
    NextKeepsAccounts(s, e);
  }

  /** Every state of every run satisfies the invariant. */
  lemma {:induction false} RunKeepsInv(s: State, es: seq<Event>)
    requires Inv(s)
    ensures Inv(Execute(s, es))
    decreases |es|
  {
    if es != [] {
      NextKeepsInv(s, es[0]);
      RunKeepsInv(Next(s, es[0]), es[1..]);
    }
  }
}
