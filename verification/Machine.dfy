/** The process and memory machine: one value per kernel state and one function per kernel
    entry. Every entry runs with interrupts off, so each event is one atomic step. */
module Machine {
  import opened Layout
  import opened Frames

  datatype RunState = Run | Ready | Blocked

  datatype Stats = Stats(user: Word, system: Word, blocked: Word, ready: Word,
                         elapsed: Word, trans: Word, remaining: Word)

  datatype Task = Task(pid: int, dir: Slot, state: RunState, quantum: int, stats: Stats)

  const NO_STATS := Stats(0, 0, 0, 0, 0, 0, 0)
  const BLANK_TASK := Task(-1, 0, Run, 0, NO_STATS)

  type Tasks = t: seq<Task> | |t| == NR_TASKS witness seq(NR_TASKS, _ => BLANK_TASK)
  type Words = w: seq<Word> | |w| == NR_TASKS witness seq(NR_TASKS, _ => 0)

  /** `tss` and `msr` name the slot whose kernel stack the two entry paths use. `structures` are
      the kernel frames that hold what is modelled apart from `mem`: blocks, tables, variables and
      code; it never changes. `start` is a history variable: the clock reading of each slot's last
      `init_stats`. */
  datatype State = State(
    tasks: Tasks, free: seq<Slot>, ready: seq<Slot>, current: Slot, idle: Slot,
    remaining: int, lastPid: int,
    phys: Phys, tables: Tables, mem: Memory,
    cr3: Slot, tlb: map<FrameNo, Pte>, tss: Slot, msr: Slot,
    structures: set<FrameNo>, start: Words)

  // ----- statistics

  /** `*v += now - *elapsed` on 32-bit unsigned words. */
  function Accrue(v: Word, elapsed: Word, now: Word): Word { (v + now - elapsed) % WORD }

  function ChargeUser(t: Task, now: Word): Task {
    t.(stats := t.stats.(user := Accrue(t.stats.user, t.stats.elapsed, now), elapsed := now))
  }

  function ChargeSystem(t: Task, now: Word): Task {
    t.(stats := t.stats.(system := Accrue(t.stats.system, t.stats.elapsed, now), elapsed := now))
  }

  function ChargeReady(t: Task, now: Word): Task {
    t.(stats := t.stats.(ready := Accrue(t.stats.ready, t.stats.elapsed, now), elapsed := now))
  }

  function InitStats(t1: Word, t2: Word): Stats { Stats(0, 0, 0, 0, t1, 0, t2) }

  // ----- scheduler

  function Without(q: seq<Slot>, t: Slot): seq<Slot> {
    if q == [] then [] else (if q[0] == t then [] else [q[0]]) + Without(q[1..], t)
  }

  /** `update_process_state_rr(t, &readyqueue)`. */
  function Requeue(s: State, t: Slot, now: Word): State {
    s.(ready := (if s.tasks[t].state == Run then s.ready else Without(s.ready, t)) + [t],
       tasks := s.tasks[t := ChargeSystem(s.tasks[t], now).(state := Ready)])
  }

  /** `update_process_state_rr(t, NULL)`. */
  function Unqueue(s: State, t: Slot): State {
    s.(ready := if s.tasks[t].state == Run then s.ready else Without(s.ready, t),
       tasks := s.tasks[t := s.tasks[t].(state := Run)])
  }

  /** The task `sched_next_rr` starts. */
  function Chosen(s: State): Slot { if s.ready != [] then s.ready[0] else s.idle }

  /** The statistics and state updates of `sched_next_rr`: first the task that leaves, then the
      task that starts (they can be the same slot). */
  function Handover(tasks: Tasks, leaver: Slot, t: Slot, t2: Word, t3: Word): Tasks {
    var a: Tasks := tasks[t := tasks[t].(state := Run)];
    var b: Tasks := a[leaver := ChargeSystem(a[leaver], t2)];
    var c := ChargeReady(b[t], t3);
    b[t := c.(stats := c.stats.(trans := (c.stats.trans + 1) % WORD))]
  }

  /** `sched_next_rr`, down to the switch of address space and stack. */
  function Dispatch(s: State, t2: Word, t3: Word): State {
    var t := Chosen(s);
    s.(ready := if s.ready != [] then s.ready[1..] else [],
       remaining := s.tasks[t].quantum,
       tasks := Handover(s.tasks, s.current, t, t2, t3),
       current := t, cr3 := s.tasks[t].dir, tlb := map[], tss := t, msr := t)
  }

  /** `schedule`, as called by the clock interrupt. */
  function Tick(s: State, t1: Word, t2: Word, t3: Word): State {
    var s1 := s.(remaining := s.remaining - 1);
    if s1.remaining == 0 && s1.ready != [] then Dispatch(Requeue(s1, s1.current, t1), t2, t3)
    else if s1.remaining == 0 then s1.(remaining := s1.tasks[s1.current].quantum)
    else s1
  }

  function Yield(s: State, t1: Word, t2: Word, t3: Word): State {
    Dispatch(Requeue(s, s.current, t1), t2, t3)
  }

  // ----- address spaces

  /** The page table that `get_PT` reaches from a task. */
  function PtOf(s: State, t: Slot): Slot { s.tasks[t].dir }

  function DataFrames(t: Table): seq<FrameNo> {
    seq<FrameNo>(NUM_PAG_DATA, k requires 0 <= k < NUM_PAG_DATA => t[PAG_LOG_INIT_DATA + k].frame)
  }

  /** Page table with its first `n` data pages unmapped. */
  function ClearData(t: Table, n: nat): Table
    requires n <= NUM_PAG_DATA
  {
    seq<Pte>(TOTAL_PAGES, p requires 0 <= p < TOTAL_PAGES =>
      if PAG_LOG_INIT_DATA <= p < PAG_LOG_INIT_DATA + n then EMPTY else t[p])
  }

  function DataEntry(t: Table, fs: seq<FrameNo>, p: FrameNo): Pte {
    if PAG_LOG_INIT_DATA <= p < PAG_LOG_INIT_DATA + |fs| then Mapped(fs[p - PAG_LOG_INIT_DATA]) else t[p]
  }

  /** Page table with data pages mapped to `fs`. */
  function MapData(t: Table, fs: seq<FrameNo>): Table
    requires |fs| <= NUM_PAG_DATA
  {
    seq<Pte>(TOTAL_PAGES, p requires 0 <= p < TOTAL_PAGES => DataEntry(t, fs, p))
  }

  /** Page table whose first `n` entries map the frames of `parent`. */
  function ShareLow(t: Table, parent: Table, n: nat): Table
    requires n <= PAG_LOG_INIT_DATA
  {
    seq<Pte>(TOTAL_PAGES, p requires 0 <= p < TOTAL_PAGES => if p < n then Mapped(parent[p].frame) else t[p])
  }

  /** Copies page `src[k]` to page `dst[k]`, all reads before all writes. */
  function CopyPages(mem: Memory, src: seq<FrameNo>, dst: seq<FrameNo>): Memory
    requires |src| == |dst|
  {
    if src == [] then mem else
      var n := |src| - 1;
      CopyPages(mem, src[..n], dst[..n])[dst[n] := mem[src[n]]]
  }

  lemma {:induction false} CopyPagesAt(mem: Memory, src: seq<FrameNo>, dst: seq<FrameNo>, f: FrameNo)
    requires |src| == |dst| && Distinct(dst)
    ensures f !in dst ==> CopyPages(mem, src, dst)[f] == mem[f]
    ensures forall k :: 0 <= k < |dst| && dst[k] == f ==> CopyPages(mem, src, dst)[f] == mem[src[k]]
    decreases |src|
  {
    if src != [] {
      var n := |src| - 1;
      CopyPagesAt(mem, src[..n], dst[..n], f);
    }
  }

  // ----- system calls

  /** `sys_fork` when some `alloc_frame` fails: the frames obtained so far are released, the slot
      goes back to the tail of the free queue, still holding a copy of the parent's block. */
  function ForkUndo(s: State, c: Slot, fs: seq<FrameNo>): State
    requires |fs| <= NUM_PAG_DATA
    requires s.free != []
  {
    s.(free := s.free[1..] + [c],
       tasks := s.tasks[c := s.tasks[s.current].(dir := c)],
       phys := Release(Mark(s.phys, fs), fs),
       tables := s.tables[c := ClearData(s.tables[c], |fs|)],
       start := s.start[c := s.start[s.current]])
  }

  /** Page tables after a fork: the child shares the parent's kernel and code frames and has
      its own data frames `fs`. */
  function ForkTables(s: State, c: Slot, fs: seq<FrameNo>): Tables
    requires |fs| == NUM_PAG_DATA
  {
    s.tables[c := ShareLow(MapData(s.tables[c], fs), s.tables[PtOf(s, s.current)], PAG_LOG_INIT_DATA)]
  }

  function ForkMemory(s: State, fs: seq<FrameNo>): Memory
    requires |fs| == NUM_PAG_DATA
  {
    CopyPages(s.mem, DataFrames(s.tables[PtOf(s, s.current)]), fs)
  }

  function ForkChild(s: State, c: Slot, fs: seq<FrameNo>, t1: Word, t2: Word): State
    requires |fs| == NUM_PAG_DATA
    requires s.free != []
  {
    var child := s.tasks[s.current].(pid := s.lastPid + 1, dir := c, state := Ready, stats := InitStats(t1, t2));
    s.(free := s.free[1..],
       ready := s.ready + [c],
       tasks := s.tasks[c := child],
       lastPid := s.lastPid + 1,
       phys := Mark(s.phys, fs),
       tables := ForkTables(s, c, fs),
       mem := ForkMemory(s, fs),
       cr3 := s.tasks[s.current].dir, tlb := map[],
       start := s.start[c := t1])
  }

  function Fork(s: State, t1: Word, t2: Word): (r: (State, int)) {
    if s.free == [] then (s, -ENOMEM) else
      var c := s.free[0];
      var fs := Allocated(s.phys, NUM_PAG_DATA);
      if |fs| < NUM_PAG_DATA then (ForkUndo(s, c, fs), -EAGAIN)
      else (ForkChild(s, c, fs, t1, t2), s.lastPid + 1)
  }

  function Vacate(s: State): State {
    var pt := PtOf(s, s.current);
    s.(phys := Release(s.phys, DataFrames(s.tables[pt])),
       tables := s.tables[pt := ClearData(s.tables[pt], NUM_PAG_DATA)],
       free := s.free + [s.current],
       tasks := s.tasks[s.current := s.tasks[s.current].(pid := -1)])
  }

  function Exit(s: State, t2: Word, t3: Word): State { Dispatch(Vacate(s), t2, t3) }

  /** First slot at or after `i` whose block holds `pid`, or NR_TASKS. */
  function FindPid(tasks: Tasks, pid: int, i: nat): (r: nat)
    requires i <= NR_TASKS
    ensures i <= r <= NR_TASKS
    ensures forall j :: i <= j < r ==> tasks[j].pid != pid
    ensures r < NR_TASKS ==> tasks[r].pid == pid
    decreases NR_TASKS - i
  {
    if i == NR_TASKS then NR_TASKS else if tasks[i].pid == pid then i else FindPid(tasks, pid, i + 1)
  }

  // ----- memory accesses of the running process

  /** The entry the processor uses for a page: the cached one if there is one. */
  function Translate(s: State, page: FrameNo): Pte {
    if page in s.tlb then s.tlb[page] else s.tables[s.cr3][page]
  }

  /** What user code may write to, by the entry the processor uses. */
  predicate UserWritable(e: Pte) { e.present && e.user && e.rw }

  /** A user store that the processor lets through and that hits no structure of the kernel. */
  predicate CanStore(s: State, page: FrameNo) {
    var e := Translate(s, page);
    UserWritable(e) && e.frame !in s.structures
  }

  function Store(s: State, page: FrameNo, off: int, b: Byte): State
    requires 0 <= off < PAGE_SIZE
  {
    var e := Translate(s, page);
    s.(mem := s.mem[e.frame := s.mem[e.frame][off := b]], tlb := s.tlb[page := e])
  }

  // ----- copies into the caller's buffer

  /** `access_ok` of a buffer. Its case for writing falls through to the one for reading, and page
      284, which no process has mapped, passes as the last one. */
  function AccessOk(addr: Word, size: nat): (ok: bool)
    ensures ok && size <= PAGE_SIZE ==> addr + size < (FIRST_TEMP + 1) * PAGE_SIZE
  {
    var first, last := addr / PAGE_SIZE, (addr + size) % WORD / PAGE_SIZE;
    last >= first && PAG_LOG_INIT_CODE <= first && last <= FIRST_TEMP
  }

  /** The buffer ends before page 284, so the processor can reach all of it. */
  predicate Fits(addr: int, size: nat) { addr + size <= FIRST_TEMP * PAGE_SIZE }

  /** `copy_to_user`: byte after byte through the page table. The kernel may write to every page that
      is present, since the write protection of its own accesses is never switched on. */
  function CopyOut(s: State, addr: nat, bs: seq<Byte>): State
    requires addr + |bs| <= TOTAL_PAGES * PAGE_SIZE
    decreases |bs|
  {
    if bs == [] then s else
      var n := |bs| - 1;
      Store(CopyOut(s, addr, bs[..n]), (addr + n) / PAGE_SIZE, (addr + n) % PAGE_SIZE, bs[n])
  }

  function WordBytes(w: Word): (bs: seq<Byte>)
    ensures |bs| == 4
  {
    [w % 0x100, w / 0x100 % 0x100, w / 0x100 / 0x100 % 0x100, w / 0x100 / 0x100 / 0x100]
  }

  /** A record as it lies in memory. */
  function RecordBytes(st: Stats): (bs: seq<Byte>)
    ensures |bs| == STATS_SIZE
  {
    WordBytes(st.user) + WordBytes(st.system) + WordBytes(st.blocked) + WordBytes(st.ready)
    + WordBytes(st.elapsed) + WordBytes(st.trans) + WordBytes(st.remaining)
  }

  /** What a call answers. When the copy reaches an unmapped page the processor faults instead, and
      the call does not come back. */
  datatype Reply<T> = Failed(errno: int) | Found(value: T) | Faulted

  /** `sys_get_stats(pid, st)`. */
  function GetStats(s: State, pid: int, st: Word): (State, Reply<Stats>) {
    if !AccessOk(st, STATS_SIZE) then (s, Failed(EFAULT)) else if pid < 0 then (s, Failed(EINVAL)) else
      var i := FindPid(s.tasks, pid, 0);
      if i == NR_TASKS then (s, Failed(ESRCH)) else if !Fits(st, STATS_SIZE) then (s, Faulted) else
        var rec := s.tasks[i].stats.(remaining := s.remaining % WORD);
        (CopyOut(s.(tasks := s.tasks[i := s.tasks[i].(stats := rec)]), st, RecordBytes(rec)), Found(rec))
  }

  /** `sys_pollEvent(addr)` while the kernel's table of keys holds `keys`. */
  function PollKeys(s: State, addr: Word, keys: Keys): (State, Reply<Keys>) {
    if !AccessOk(addr, KEYS_SIZE) then (s, Failed(EFAULT)) else if !Fits(addr, KEYS_SIZE) then (s, Faulted) else
      (CopyOut(s, addr, keys), Found(keys))
  }

  // ----- the machine

  datatype Event =
    | Clock(t1: Word, t2: Word, t3: Word)
    | Forking(t1: Word, t2: Word)
    | Exiting(t2: Word, t3: Word)
    | Yielding(t1: Word, t2: Word, t3: Word)
    | Statting(pid: int, st: Word)
    | Polling(addr: Word, keys: Keys)
    | Storing(page: FrameNo, off: int, b: Byte)
    | Caching(page: FrameNo)
    | Evicting(pages: set<FrameNo>)
    | Entering(t: Word)
    | Leaving(t: Word)

  predicate Enabled(s: State, e: Event) {
    match e
    case Forking(_, _) => s.current != s.idle
    case Exiting(_, _) => s.current != s.idle
    case Yielding(_, _, _) => s.current != s.idle
    case Statting(_, _) => s.current != s.idle
    case Polling(_, _) => s.current != s.idle
    case Storing(page, off, _) => s.current != s.idle && 0 <= off < PAGE_SIZE && CanStore(s, page)
    case Caching(page) => s.tables[s.cr3][page].present
    case _ => true
  }

  /** The state after an event; an event that cannot happen leaves the state alone. */
  function Next(s: State, e: Event): State {
    if !Enabled(s, e) then s else
      match e
      case Clock(t1, t2, t3) => Tick(s, t1, t2, t3)
      case Forking(t1, t2) => Fork(s, t1, t2).0
      case Exiting(t2, t3) => Exit(s, t2, t3)
      case Yielding(t1, t2, t3) => Yield(s, t1, t2, t3)
      case Statting(pid, st) => GetStats(s, pid, st).0
      case Polling(addr, keys) => PollKeys(s, addr, keys).0
      case Storing(page, off, b) => Store(s, page, off, b)
      case Caching(page) => s.(tlb := s.tlb[page := s.tables[s.cr3][page]])
      case Evicting(pages) => s.(tlb := s.tlb - pages)
      case Entering(t) => s.(tasks := s.tasks[s.current := ChargeUser(s.tasks[s.current], t)])
      case Leaving(t) => s.(tasks := s.tasks[s.current := ChargeSystem(s.tasks[s.current], t)])
  }

  function Execute(s: State, es: seq<Event>): State
    decreases |es|
  {
    if es == [] then s else Execute(Next(s, es[0]), es[1..])
  }
}
