/** The scheduler and the stacks together: which task each switch goes to, and whether that task
    goes on where it left off. */
module Joint {
  import opened Layout
  import opened Frames
  import opened Machine
  import opened Invariant
  import opened Startup
  import opened ContextSwitch

  /** What an event of the machine does to the stacks. */
  datatype Kind = Stays | Spawns(child: Slot) | Undone(child: Slot) | Switches | Ends | Lone

  function KindOf(s: State, e: Event): Kind {
    if !Enabled(s, e) then Stays else
      match e
      case Clock(_, _, _) => if s.remaining == 1 && s.ready != [] then Switches else Stays
      case Yielding(_, _, _) => if s.ready == [] then Lone else Switches
      case Exiting(_, _) => Ends
      case Forking(_, _) =>
        if s.free == [] then Stays
        else if |Allocated(s.phys, NUM_PAG_DATA)| < NUM_PAG_DATA then Undone(s.free[0]) else Spawns(s.free[0])
      case _ => Stays
  }

  /** The address of the page that holds block and stack of slot `i`. */
  function PageAt(base: int, i: Slot): int { base + i * PAGE }

  /** The tasks that can be switched to: the ready ones, and the idle task while it does not run. */
  predicate Parked(s: State, i: Slot) { i in s.ready || (i == s.idle && s.current != s.idle) }

  ghost predicate OfSlot(base: int, p: int) { exists i: Slot :: p == PageAt(base, i) }

  /** The processor is on the stack of the running task, and the stacks prepared for a switch are
      exactly those of the parked tasks. */
  ghost predicate Together(base: int, s: State, k: Stacks) {
    && base % PAGE == 0 && StacksInv(k) && k.own == PageAt(base, s.current)
    && (forall i: Slot :: PageAt(base, i) in k.waiting <==> Parked(s, i))
    && (forall p :: p in k.waiting ==> OfSlot(base, p))
  }

  /** An event with its effect on the stacks: `d` is where a switch goes on, `next` the stacks
      afterwards; after a fork the parent is about to leave `sys_fork`. */
  datatype Move = Move(e: Event, d: Cpu, next: Stacks)

  /** The processor `p` is at the end of `sys_fork`, called by the task of page `parent`, with its frame
      inside that page, and the stack of the page `child` is the one that `sys_fork` forged. */
  ghost predicate EndsFork(p: Cpu, parent: int, child: int) {
    && (p.ebp - parent) % 4 == 0 && parent + BLOCK_SIZE <= p.ebp - 4 && p.ebp + 68 <= parent + PAGE
    && ForkedStack(p.mem, p.mem, parent, child, p.ebp)
  }

  function Forked(p: Cpu, parent: int, child: int): Context { ForkContext(p.mem, p.mem, parent, child, p.ebp) }

  /** The running task has written in its own page and in the page `other`, but to no saved stack
      pointer of its own. */
  ghost predicate WritesOnly(k: Stacks, other: int, r: Stacks) {
    && r.own == k.own && OnOwnPage(r.cpu, k.own)
    && OthersKept(k.cpu.mem, r.cpu.mem, k.own, other) && KeepsSaved(k.cpu.mem, r.cpu.mem, k.own)
  }

  /** There is room on the stack for a call of `task_switch`. */
  predicate HasRoom(k: Stacks) { k.own + BLOCK_SIZE <= k.cpu.esp - 28 && k.cpu.esp + 4 < k.own + PAGE }

  /** The code of event `m.e` can take the stacks from `k` to `m.next`. A fork that is undone has
      written the child's page; a task that yields alone calls `task_switch` for itself. */
  ghost predicate Can(base: int, s: State, k: Stacks, m: Move) {
    var page := PageAt(base, Next(s, m.e).current);
    match KindOf(s, m.e)
    case Stays => Step(k, Work, m.next)
    case Spawns(c) =>
      var child := PageAt(base, c);
      && WritesOnly(k, child, m.next) && EndsFork(m.next.cpu, k.own, child)
      && m.next.waiting == k.waiting[child := Forked(m.next.cpu, k.own, child)]
    case Undone(c) => WritesOnly(k, PageAt(base, c), m.next) && m.next.waiting == k.waiting
    case Switches => Step(k, SwitchTo(page, m.d), m.next)
    case Ends => Step(k, ExitTo(page, m.d), m.next)
    case Lone => HasRoom(k) && Switched(k.cpu, m.d, k.own, k.own) && m.next == Stacks(Left(m.d), k.own, k.waiting)
  }

  lemma PagesOfSlots(base: int, i: Slot, j: Slot)
    requires base % PAGE == 0
    ensures PageAt(base, i) % PAGE == 0
    ensures PageAt(base, i) == PageAt(base, j) <==> i == j
  {
  }

  /** Who is parked after an event: a switch parks the task that gave way and takes the chosen one,
      an exit only takes the chosen one, a fork parks the child; the chosen one was parked. */
  lemma NextParked(s: State, e: Event)
    requires Core(s)
    ensures var r := Next(s, e);
      match KindOf(s, e)
      case Spawns(c) =>
        && r.current == s.current && c != s.current && !Parked(s, c)
        && forall i: Slot :: Parked(r, i) <==> Parked(s, i) || i == c
      case Switches =>
        && r.current != s.current && Parked(s, r.current)
        && forall i: Slot :: Parked(r, i) <==> (Parked(s, i) && i != r.current) || i == s.current
      case Ends =>
        && r.current != s.current && Parked(s, r.current)
        && forall i: Slot :: Parked(r, i) <==> Parked(s, i) && i != r.current
      case Undone(c) =>
        r.current == s.current && !Parked(s, c) && forall i: Slot :: Parked(r, i) <==> Parked(s, i)
      case _ => r.current == s.current && forall i: Slot :: Parked(r, i) <==> Parked(s, i)
  {
    if Enabled(s, e) {
      match e
      case Clock(t1, t2, t3) =>
        TickCases(s, t1, t2, t3);
        if s.remaining == 1 && s.ready != [] {
          YieldParked(s, t1, t2, t3);
        }
      case Yielding(t1, t2, t3) => YieldParked(s, t1, t2, t3);
      case Exiting(t2, t3) => ExitParked(s, t2, t3);
      case Forking(t1, t2) => ForkParked(s, t1, t2);
      case _ => LightStep(s, e);
    }
  }

  lemma YieldParked(s: State, t1: Word, t2: Word, t3: Word)
    requires Core(s) && s.current != s.idle
    ensures var r := Yield(s, t1, t2, t3);
      if s.ready == [] then r.current == s.current && forall i: Slot :: Parked(r, i) <==> Parked(s, i)
      else
        && r.current != s.current && Parked(s, r.current)
        && forall i: Slot :: Parked(r, i) <==> (Parked(s, i) && i != r.current) || i == s.current
  {
    YieldRotates(s, t1, t2, t3);
    Push(s.ready, s.current);
    Pop(s.ready + [s.current]);
  }

  lemma ExitParked(s: State, t2: Word, t3: Word)
    requires Core(s) && s.current != s.idle
    ensures var r := Exit(s, t2, t3);
      && r.current != s.current && Parked(s, r.current)
      && forall i: Slot :: Parked(r, i) <==> Parked(s, i) && i != r.current
  {
    ExitShape(s, t2, t3);
    if s.ready != [] {
      Pop(s.ready);
    }
  }

  lemma ForkParked(s: State, t1: Word, t2: Word)
    requires Core(s) && s.current != s.idle
    ensures var r := Fork(s, t1, t2).0; var n := |Allocated(s.phys, NUM_PAG_DATA)|;
      && r.current == s.current
      && (s.free != [] ==> s.free[0] != s.current && !Parked(s, s.free[0]))
      && forall i: Slot :: Parked(r, i) <==>
           Parked(s, i) || (s.free != [] && n >= NUM_PAG_DATA && i == s.free[0])
  {
    if s.free != [] {
      Pop(s.free);
      Push(s.ready, s.free[0]);
    }
  }

  /** Which events do what to the stacks; another task runs afterwards exactly after a switch or an exit. */
  lemma {:induction false} Kinds(s: State, e: Event)
    requires Core(s)
    ensures var k, process, n := KindOf(s, e), s.current != s.idle, |Allocated(s.phys, 20)|;
      && (k == Lone <==> e.Yielding? && process && s.ready == [])
      && (k == Switches <==> s.ready != [] && ((e.Yielding? && process) || (e.Clock? && s.remaining == 1)))
      && (k == Ends <==> e.Exiting? && process)
      && (k.Spawns? <==> e.Forking? && process && s.free != [] && n == 20)
      && (k.Undone? <==> e.Forking? && process && s.free != [] && n < 20)
      && (k.Spawns? || k.Undone? ==> k.child == s.free[0])
    ensures Next(s, e).current != s.current <==> KindOf(s, e) in {Switches, Ends}
  {
    NextParked(s, e);
  }

  // ----- one move

  /** Where the task chosen by an event is to go on: at its last call of `task_switch`, which for
      a task that yields alone is the call it just made, or at its first entry. */
  ghost function Expected(base: int, s: State, k: Stacks, m: Move): Context
    requires Core(s) && Together(base, s, k) && KindOf(s, m.e) in {Switches, Ends, Lone}
  {
    NextParked(s, m.e);
    if KindOf(s, m.e) == Lone then Called(k.cpu) else k.waiting[PageAt(base, Next(s, m.e).current)]
  }

  /** If a task yields alone, the stack pointer saved at its previous switch must be the one that
      its new call is about to save. */
  ghost predicate SavedPointerFits(s: State, k: Stacks, e: Event) {
    KindOf(s, e) == Lone ==> Rd(k.cpu.mem, k.own + ESP_SLOT) == k.cpu.esp - 28
  }

  /** The event switches no task, or the chosen task goes on where it is expected to. */
  ghost predicate TakesUp(base: int, s: State, k: Stacks, m: Move)
    requires Core(s) && Together(base, s, k)
  {
    KindOf(s, m.e) in {Switches, Ends, Lone} ==> Restored(Expected(base, s, k, m), m.d)
  }

  /** The task that the scheduler chooses goes on where it left off, except after a lone yield with
      another saved stack pointer. */
  lemma MoveTakesUp(base: int, s: State, k: Stacks, m: Move)
    requires Core(s) && Together(base, s, k) && Can(base, s, k, m)
    ensures TakesUp(base, s, k, m) <==> SavedPointerFits(s, k, m.e)
  {
    match KindOf(s, m.e)
    case Switches => SwitchRestores(k, PageAt(base, Next(s, m.e).current), m.d);
    case Ends => SwitchRestores(k, PageAt(base, Next(s, m.e).current), m.d);
    case Lone => SelfSwitch(k.cpu, m.d, k.own);
    case _ =>
  }

  /** Every move keeps scheduler and stacks together, lone yields under their condition. */
  lemma MoveKeepsTogether(base: int, s: State, k: Stacks, m: Move)
    requires Core(s) && Together(base, s, k) && Can(base, s, k, m) && SavedPointerFits(s, k, m.e)
    ensures Together(base, Next(s, m.e), m.next)
  {
    MoveKeepsStacks(base, s, k, m);
    MoveKeepsParked(base, s, k, m);
    MoveKeepsPages(base, s, k, m);
  }

  lemma MoveKeepsPages(base: int, s: State, k: Stacks, m: Move)
    requires Core(s) && Together(base, s, k) && Can(base, s, k, m)
    ensures m.next.own == PageAt(base, Next(s, m.e).current)
    ensures forall p :: p in m.next.waiting ==> OfSlot(base, p)
  {
    NextParked(s, m.e);
    var kind := KindOf(s, m.e);
    forall p | p in m.next.waiting
      ensures OfSlot(base, p)
    {
      assert p in k.waiting || p == k.own || (kind.Spawns? && p == PageAt(base, kind.child));
    }
  }

  lemma MoveKeepsParked(base: int, s: State, k: Stacks, m: Move)
    requires Core(s) && Together(base, s, k) && Can(base, s, k, m)
    ensures forall i: Slot :: PageAt(base, i) in m.next.waiting <==> Parked(Next(s, m.e), i)
  {
    NextParked(s, m.e);
    match KindOf(s, m.e)
    case Spawns(c) => AddPage(base, k, m.next, c, s, Next(s, m.e));
    case Switches => SwapPages(base, k, m.next, s, Next(s, m.e));
    case Ends => DropPage(base, k, m.next, s, Next(s, m.e));
    case _ =>
  }

  lemma AddPage(base: int, k: Stacks, n: Stacks, c: Slot, s: State, r: State)
    requires Together(base, s, k) && n.waiting.Keys == k.waiting.Keys + {PageAt(base, c)}
    requires forall i: Slot :: Parked(r, i) <==> Parked(s, i) || i == c
    ensures forall i: Slot :: PageAt(base, i) in n.waiting <==> Parked(r, i)
  {
    forall i: Slot {
      PagesOfSlots(base, i, c);
    }
  }

  lemma SwapPages(base: int, k: Stacks, n: Stacks, s: State, r: State)
    requires Together(base, s, k)
    requires n.waiting.Keys == k.waiting.Keys - {PageAt(base, r.current)} + {PageAt(base, s.current)}
    requires forall i: Slot :: Parked(r, i) <==> (Parked(s, i) && i != r.current) || i == s.current
    ensures forall i: Slot :: PageAt(base, i) in n.waiting <==> Parked(r, i)
  {
    forall i: Slot
      ensures PageAt(base, i) in n.waiting <==> Parked(r, i)
    {
      PagesOfSlots(base, i, s.current);
      PagesOfSlots(base, i, r.current);
    }
  }

  lemma DropPage(base: int, k: Stacks, n: Stacks, s: State, r: State)
    requires Together(base, s, k) && n.waiting.Keys == k.waiting.Keys - {PageAt(base, r.current)}
    requires forall i: Slot :: Parked(r, i) <==> Parked(s, i) && i != r.current
    ensures forall i: Slot :: PageAt(base, i) in n.waiting <==> Parked(r, i)
  {
    forall i: Slot {
      PagesOfSlots(base, i, r.current);
    }
  }

  lemma MoveKeepsStacks(base: int, s: State, k: Stacks, m: Move)
    requires Core(s) && Together(base, s, k) && Can(base, s, k, m) && SavedPointerFits(s, k, m.e)
    ensures StacksInv(m.next)
  {
    var page := PageAt(base, Next(s, m.e).current);
    match KindOf(s, m.e)
    case Stays => StepKeepsStacks(k, Work, m.next);
    case Spawns(c) =>
      SpawnIsStep(base, s, k, m, c);
      StepKeepsStacks(k, Spawn(PageAt(base, c), Forked(m.next.cpu, k.own, PageAt(base, c))), m.next);
    case Switches => StepKeepsStacks(k, SwitchTo(page, m.d), m.next);
    case Ends => StepKeepsStacks(k, ExitTo(page, m.d), m.next);
    case Undone(c) =>
      NextParked(s, m.e);
      forall p | p in k.waiting ensures Held(m.next.cpu.mem, p, k.waiting[p]) {
        HeldStays(k.cpu.mem, m.next.cpu.mem, p, k.waiting[p]);
      }
    case Lone =>
      forall p | p in k.waiting ensures Held(m.next.cpu.mem, p, k.waiting[p]) {
        SwitchIsOwn(k.cpu, m.d, k.own, k.own, p);
        HeldStays(k.cpu.mem, m.d.mem, p, k.waiting[p]);
      }
  }

  /** What a fork leaves in the child's page is a context of the stack model. */
  lemma SpawnIsStep(base: int, s: State, k: Stacks, m: Move, c: Slot)
    requires Core(s) && Together(base, s, k) && Can(base, s, k, m) && KindOf(s, m.e) == Spawns(c)
    ensures var child := PageAt(base, c); Step(k, Spawn(child, Forked(m.next.cpu, k.own, child)), m.next)
  {
    NextParked(s, m.e);
    PagesOfSlots(base, c, s.current);
    ForkSpawns(m.next.cpu.mem, m.next.cpu.mem, k.own, PageAt(base, c), m.next.cpu.ebp);
  }

  // ----- whole runs

  ghost predicate CanAll(base: int, s: State, k: Stacks, ms: seq<Move>)
    decreases |ms|
  {
    ms == [] || (Can(base, s, k, ms[0]) && CanAll(base, Next(s, ms[0].e), ms[0].next, ms[1..]))
  }

  /** Every lone yield of the run finds the saved stack pointer it needs. */
  ghost predicate PointersFit(s: State, k: Stacks, ms: seq<Move>)
    decreases |ms|
  {
    ms == [] || (SavedPointerFits(s, k, ms[0].e) && PointersFit(Next(s, ms[0].e), ms[0].next, ms[1..]))
  }

  /** Scheduler and stacks stay together through the run, and every chosen task goes on where it is
      expected to. */
  ghost predicate AllTakenUp(base: int, s: State, k: Stacks, ms: seq<Move>)
    decreases |ms|
  {
    && Core(s) && Together(base, s, k)
    && (ms == [] || (TakesUp(base, s, k, ms[0]) && AllTakenUp(base, Next(s, ms[0].e), ms[0].next, ms[1..])))
  }

  /** In any run of scheduler and stacks together, every switch, whoever the scheduler chooses, goes
      on where that task left off, if and only if every lone yield finds the stack pointer saved at
      the task's previous switch equal to the one it is about to save. */
  lemma {:induction false} RunTakesUp(base: int, s: State, k: Stacks, ms: seq<Move>)
    requires Core(s) && Together(base, s, k) && CanAll(base, s, k, ms)
    ensures AllTakenUp(base, s, k, ms) <==> PointersFit(s, k, ms)
    decreases |ms|
  {
    if ms != [] {
      MoveTakesUp(base, s, k, ms[0]);
      if SavedPointerFits(s, k, ms[0].e) {
        NextKeepsCore(s, ms[0].e);
        MoveKeepsTogether(base, s, k, ms[0]);
        RunTakesUp(base, Next(s, ms[0].e), ms[0].next, ms[1..]);
      }
    }
  }

  // ----- saved stack pointers by history

  type Pointers = q: seq<int> | |q| == NR_TASKS witness seq(NR_TASKS, _ => 0)

  /** The stack pointer at each slot's last departure, after a move: a call of `task_switch` departs 28
      bytes below where it was entered, and `sys_fork` departs for the child at its forged words. */
  function Departures(base: int, s: State, k: Stacks, m: Move, left: Pointers): Pointers {
    match KindOf(s, m.e)
    case Spawns(c) => left[c := PageAt(base, c) + (m.next.cpu.ebp - k.own) - 4]
    case Switches => left[s.current := k.cpu.esp - 28]
    case Lone => left[s.current := k.cpu.esp - 28]
    case _ => left
  }

  /** Every lone yield of the run departs at the stack pointer of the task's departure before. */
  ghost predicate HistoryFits(base: int, s: State, k: Stacks, left: Pointers, ms: seq<Move>)
    decreases |ms|
  {
    ms == [] ||
    (&& (KindOf(s, ms[0].e) == Lone ==> left[s.current] == k.cpu.esp - 28)
     && HistoryFits(base, Next(s, ms[0].e), ms[0].next, Departures(base, s, k, ms[0], left), ms[1..]))
  }

  function SavedBy(ctx: Context): int {
    match ctx
    case Called(c) => c.esp - 28
    case Forged(top, _, _, _) => top
  }

  /** `left` tells the last departures of the parked tasks and of the running one. */
  ghost predicate Tracks(base: int, s: State, k: Stacks, left: Pointers)
    requires Together(base, s, k)
  {
    && Rd(k.cpu.mem, k.own + ESP_SLOT) == left[s.current]
    && forall i: Slot :: Parked(s, i) ==> SavedBy(k.waiting[PageAt(base, i)]) == left[i]
  }

  /** The saved stack pointer of the running task after a move. */
  lemma MoveTracksOwn(base: int, s: State, k: Stacks, m: Move, left: Pointers)
    requires Core(s) && Together(base, s, k) && Can(base, s, k, m) && Tracks(base, s, k, left)
    ensures var r := Next(s, m.e);
      Rd(m.next.cpu.mem, PageAt(base, r.current) + ESP_SLOT) == Departures(base, s, k, m, left)[r.current]
  {
    NextParked(s, m.e);
    OwnPointer(base, s, k, m);
  }

  lemma {:induction false} OwnPointer(base: int, s: State, k: Stacks, m: Move)
    requires Core(s) && Together(base, s, k) && Can(base, s, k, m)
    ensures var page := PageAt(base, Next(s, m.e).current); var saved := Rd(m.next.cpu.mem, page + ESP_SLOT);
      match KindOf(s, m.e)
      case Switches => page in k.waiting && saved == SavedBy(k.waiting[page])
      case Ends => page in k.waiting && saved == SavedBy(k.waiting[page])
      case Lone => saved == k.cpu.esp - 28
      case _ => saved == Rd(k.cpu.mem, k.own + ESP_SLOT)
  {
    NextParked(s, m.e);
    var page := PageAt(base, Next(s, m.e).current);
    match KindOf(s, m.e)
    case Switches => WokenPointer(k, page, m.d);
    case Ends => WokenPointer(k, page, m.d);
    case _ =>
  }

  lemma WokenPointer(k: Stacks, page: int, d: Cpu)
    requires StacksInv(k) && CanSwitch(k, page, d)
    ensures Rd(d.mem, page + ESP_SLOT) == SavedBy(k.waiting[page])
  {
    SwitchIsOwn(k.cpu, d, k.own, page, page);
    HeldStays(k.cpu.mem, d.mem, page, k.waiting[page]);
  }

  /** The contexts of the parked tasks after a move. */
  lemma {:induction false} MoveTracksParked(base: int, s: State, k: Stacks, m: Move, left: Pointers, i: Slot)
    requires Core(s) && Together(base, s, k) && Can(base, s, k, m) && Tracks(base, s, k, left)
    requires Parked(Next(s, m.e), i) && PageAt(base, i) in m.next.waiting
    ensures SavedBy(m.next.waiting[PageAt(base, i)]) == Departures(base, s, k, m, left)[i]
  {
    NextParked(s, m.e);
    PagesOfSlots(base, i, s.current);
    PagesOfSlots(base, i, Next(s, m.e).current);
    if KindOf(s, m.e).Spawns? {
      PagesOfSlots(base, i, KindOf(s, m.e).child);
    }
  }

  lemma {:induction false} MoveKeepsTracks(base: int, s: State, k: Stacks, m: Move, left: Pointers)
    requires Core(s) && Together(base, s, k) && Can(base, s, k, m) && Tracks(base, s, k, left)
    requires Together(base, Next(s, m.e), m.next)
    ensures Tracks(base, Next(s, m.e), m.next, Departures(base, s, k, m, left))
  {
    MoveTracksOwn(base, s, k, m, left);
    MoveTracksAll(base, s, k, m, left);
  }

  lemma {:induction false} MoveTracksAll(base: int, s: State, k: Stacks, m: Move, left: Pointers)
    requires Core(s) && Together(base, s, k) && Can(base, s, k, m) && Tracks(base, s, k, left)
    requires Together(base, Next(s, m.e), m.next)
    ensures var r, n := Next(s, m.e), m.next;
      forall i: Slot :: Parked(r, i) ==> SavedBy(n.waiting[PageAt(base, i)]) == Departures(base, s, k, m, left)[i]
  {
    forall i: Slot | Parked(Next(s, m.e), i)
      ensures SavedBy(m.next.waiting[PageAt(base, i)]) == Departures(base, s, k, m, left)[i]
    {
      MoveTracksParked(base, s, k, m, left, i);
    }
  }

  /** What the memory holds at the lone yields of a run is what its history says. */
  lemma {:induction false} PointersAreHistory(base: int, s: State, k: Stacks, left: Pointers, ms: seq<Move>)
    requires Core(s) && Together(base, s, k) && CanAll(base, s, k, ms) && Tracks(base, s, k, left)
    ensures PointersFit(s, k, ms) <==> HistoryFits(base, s, k, left, ms)
    decreases |ms|
  {
    if ms != [] && SavedPointerFits(s, k, ms[0].e) {
      var r, n, l := HistoryGoesOn(base, s, k, left, ms);
      PointersAreHistory(base, r, n, l, ms[1..]);
    }
  }

  /** The states after the first move, and the departures so far. */
  lemma {:induction false} HistoryGoesOn(base: int, s: State, k: Stacks, left: Pointers, ms: seq<Move>)
    returns (r: State, n: Stacks, l: Pointers)
    requires Core(s) && Together(base, s, k) && CanAll(base, s, k, ms) && Tracks(base, s, k, left)
    requires ms != [] && SavedPointerFits(s, k, ms[0].e)
    ensures Core(r) && Together(base, r, n) && CanAll(base, r, n, ms[1..]) && Tracks(base, r, n, l)
    ensures PointersFit(s, k, ms) <==> PointersFit(r, n, ms[1..])
    ensures HistoryFits(base, s, k, left, ms) <==> HistoryFits(base, r, n, l, ms[1..])
  {
    r, n, l := Next(s, ms[0].e), ms[0].next, Departures(base, s, k, ms[0], left);
    NextKeepsCore(s, ms[0].e);
    MoveKeepsTogether(base, s, k, ms[0]);
    MoveKeepsTracks(base, s, k, ms[0], left);
  }

  // ----- a forked child

  /** The last move of the run is the first that chooses task `c`. */
  ghost predicate FirstChosen(s: State, ms: seq<Move>, c: Slot)
    decreases |ms|
  {
    ms != [] &&
    var r := Next(s, ms[0].e);
    if |ms| == 1 then r.current == c else r.current != c && FirstChosen(r, ms[1..], c)
  }

  /** A parked task that is not chosen keeps its context. */
  lemma {:induction false} ContextStays(base: int, s: State, k: Stacks, m: Move, c: Slot)
    requires Core(s) && Together(base, s, k) && Can(base, s, k, m)
    requires Parked(s, c) && Next(s, m.e).current != c
    ensures var page := PageAt(base, c);
      Parked(Next(s, m.e), c) && page in m.next.waiting && m.next.waiting[page] == k.waiting[page]
  {
    NextParked(s, m.e);
    WaitingChanges(base, s, k, m);
    PagesOfSlots(base, c, Next(s, m.e).current);
    if KindOf(s, m.e).Spawns? {
      PagesOfSlots(base, c, KindOf(s, m.e).child);
    }
  }

  /** The contexts after a move differ at most at the child's page, the running task's and the chosen one's. */
  lemma {:induction false} WaitingChanges(base: int, s: State, k: Stacks, m: Move)
    requires Can(base, s, k, m)
    ensures var kind, chosen := KindOf(s, m.e), PageAt(base, Next(s, m.e).current);
      forall p | p in k.waiting && p != k.own && p != chosen && (kind.Spawns? ==> p != PageAt(base, kind.child)) ::
        p in m.next.waiting && m.next.waiting[p] == k.waiting[p]
  {
  }

  /** However long a parked task waits, it is first chosen with the context that it was parked with. */
  lemma {:induction false} ChosenWithContext(base: int, s: State, k: Stacks, ms: seq<Move>, c: Slot)
    requires Core(s) && Together(base, s, k) && CanAll(base, s, k, ms) && PointersFit(s, k, ms)
    requires Parked(s, c) && FirstChosen(s, ms, c)
    ensures var ctx, d := k.waiting[PageAt(base, c)], ms[|ms| - 1].d;
      Restored(ctx, d) && (ctx.Forged? ==> Keeps(ctx.image, d.mem, PageAt(base, c)))
    decreases |ms|
  {
    if |ms| == 1 {
      ChosenNow(base, s, k, ms[0], c);
    } else {
      var r, n := WaitsOn(base, s, k, ms, c);
      ChosenWithContext(base, r, n, ms[1..], c);
    }
  }

  lemma {:induction false} ChosenNow(base: int, s: State, k: Stacks, m: Move, c: Slot)
    requires Core(s) && Together(base, s, k) && Can(base, s, k, m) && Parked(s, c) && Next(s, m.e).current == c
    ensures var ctx := k.waiting[PageAt(base, c)];
      Restored(ctx, m.d) && (ctx.Forged? ==> Keeps(ctx.image, m.d.mem, PageAt(base, c)))
  {
    NextParked(s, m.e);
    SwitchRestores(k, PageAt(base, c), m.d);
  }

  /** The rest of a run in which `c` waits, from the states `r` and `n` after its first move. */
  lemma {:induction false} WaitsOn(base: int, s: State, k: Stacks, ms: seq<Move>, c: Slot) returns (r: State, n: Stacks)
    requires Core(s) && Together(base, s, k) && CanAll(base, s, k, ms) && PointersFit(s, k, ms)
    requires Parked(s, c) && FirstChosen(s, ms, c) && |ms| > 1
    ensures Core(r) && Together(base, r, n) && CanAll(base, r, n, ms[1..]) && PointersFit(r, n, ms[1..])
    ensures Parked(r, c) && FirstChosen(r, ms[1..], c)
    ensures n.waiting[PageAt(base, c)] == k.waiting[PageAt(base, c)]
  {
    r, n := Next(s, ms[0].e), ms[0].next;
    ContextStays(base, s, k, ms[0], c);
    NextKeepsCore(s, ms[0].e);
    MoveKeepsTogether(base, s, k, ms[0]);
  }

  /** A fork leaves the child parked with the context that it forged. */
  lemma {:induction false} SpawnParks(base: int, s: State, k: Stacks, m: Move, c: Slot)
    requires Core(s) && Together(base, s, k) && Can(base, s, k, m) && KindOf(s, m.e) == Spawns(c)
    ensures var r, child := Next(s, m.e), PageAt(base, c);
      && Core(r) && Together(base, r, m.next) && Parked(r, c)
      && EndsFork(m.next.cpu, k.own, child) && m.next.waiting[child] == Forked(m.next.cpu, k.own, child)
  {
    NextParked(s, m.e);
    NextKeepsCore(s, m.e);
    MoveKeepsTogether(base, s, k, m);
  }

  /** User mode is entered alike by a parent at the end of `sys_fork` and by the child it forged. */
  ghost predicate EnterAlike(p: Cpu, d: Cpu, parent: int, child: int, pid: int) {
    var x, y := FromFork(d), ParentReturns(p, pid);
    && d.eip == RET_FROM_FORK
    && x.eip == y.eip && x.ebp == y.ebp && x.esp - child == y.esp - parent
    && UserView(x.mem, x.esp, x.eax) == UserView(y.mem, y.esp, y.eax).(eax := 0)
  }

  lemma ForgedEntersAlike(p: Cpu, d: Cpu, parent: int, child: int, pid: int)
    requires EndsFork(p, parent, child) && Restored(Forked(p, parent, child), d) && Keeps(p.mem, d.mem, child)
    ensures EnterAlike(p, d, parent, child, pid)
  {
    ForkReturnsTwice(p.mem, p.mem, parent, child, p, d, pid);
  }

  /** The child that the scheduler starts is the one that `sys_fork` forged: in any run after a fork
      whose lone yields fit, when the child is first chosen it goes on in `ret_from_fork`, and from
      there, at the same offset of its own stack page, enters user mode with the registers that its
      parent has after the fork, except that eax is 0. */
  lemma {:induction false} ForkedChildStarts(base: int, s: State, k: Stacks, m: Move, ms: seq<Move>, c: Slot, pid: int)
    requires Core(s) && Together(base, s, k) && Can(base, s, k, m) && KindOf(s, m.e) == Spawns(c)
    requires var r := Next(s, m.e); CanAll(base, r, m.next, ms) && PointersFit(r, m.next, ms) && FirstChosen(r, ms, c)
    ensures EnterAlike(m.next.cpu, ms[|ms| - 1].d, k.own, PageAt(base, c), pid)
  {
    SpawnParks(base, s, k, m, c);
    ChosenWithContext(base, Next(s, m.e), m.next, ms, c);
    ForgedEntersAlike(m.next.cpu, ms[|ms| - 1].d, k.own, PageAt(base, c), pid);
  }

  /** In terms of the parent's system call: if its saved frame, above the frame of `sys_fork`, is still that
      of the entry from user mode, then the child, when it is first chosen, comes back to user mode where
      the parent called fork, with the parent's registers at the call and 0 in eax. */
  lemma {:induction false} ForkedChildComesBack(base: int, s: State, k: Stacks, m: Move, ms: seq<Move>, c: Slot,
                                                call: Cpu, x: Others, ret: int)
    requires Core(s) && Together(base, s, k) && Can(base, s, k, m) && KindOf(s, m.e) == Spawns(c)
    requires var r := Next(s, m.e); CanAll(base, r, m.next, ms) && PointersFit(r, m.next, ms) && FirstChosen(r, ms, c)
    requires SavedFrame(m.next.cpu.mem, m.next.cpu.ebp + 8, call, x, ret)
    ensures var y := FromFork(ms[|ms| - 1].d); ComesBack(UserView(y.mem, y.esp, y.eax), call, x, ret, 0)
  {
    ForkedChildStarts(base, s, k, m, ms, c, 0);
    AlikeComesBack(m.next.cpu, ms[|ms| - 1].d, k.own, PageAt(base, c), call, x, ret);
  }

  lemma AlikeComesBack(p: Cpu, d: Cpu, parent: int, child: int, call: Cpu, x: Others, ret: int)
    requires EnterAlike(p, d, parent, child, 0) && SavedFrame(p.mem, p.ebp + 8, call, x, ret)
    ensures var y := FromFork(d); ComesBack(UserView(y.mem, y.esp, y.eax), call, x, ret, 0)
  {
    SystemCallReturns(p.mem, p.mem, p.ebp + 8, call, x, ret, 0);
  }

  // ----- from boot

  /** The stack that `init_idle` leaves in memory `m`. */
  function IdleContext(page: int, m: Mem): Context { Forged(page + PAGE - 8, 0, CPU_IDLE, m) }

  /** The first process runs and the idle task waits for its first switch. */
  function BootStacks(base: int, m: Mem, c: Cpu): Stacks {
    Stacks(c, PageAt(base, 1), map[PageAt(base, 0) := IdleContext(PageAt(base, 0), m)])
  }

  /** The idle task's page is as `init_idle` prepared it in memory `m`, and the processor is on the
      stack of the first process, whose saved stack pointer is 0 as in the loaded image. */
  ghost predicate Booted(base: int, m: Mem, c: Cpu) {
    && 0 <= base && base % PAGE == 0 && OnOwnPage(c, PageAt(base, 1)) && Rd(c.mem, PageAt(base, 1) + ESP_SLOT) == 0
    && Held(m, PageAt(base, 0), IdleContext(PageAt(base, 0), m)) && Keeps(m, c.mem, PageAt(base, 0))
  }

  /** The idle task departs from the top of its stack, nobody else has departed yet. */
  function BootDepartures(base: int): Pointers {
    var none: Pointers := seq(NR_TASKS, _ => 0);
    none[0 := PageAt(base, 0) + PAGE - 8]
  }

  lemma BootTogether(base: int, b: Params, m: Mem, c: Cpu)
    requires b.Valid() && Booted(base, m, c)
    ensures Core(Boot(b)) && Together(base, Boot(b), BootStacks(base, m, c))
    ensures Tracks(base, Boot(b), BootStacks(base, m, c), BootDepartures(base))
  {
    BootInv(b);
    HeldStays(m, c.mem, PageAt(base, 0), IdleContext(PageAt(base, 0), m));
    forall i: Slot {
      PagesOfSlots(base, i, 0);
    }
    assert OfSlot(base, PageAt(base, 0));
  }

  /** For every run from boot, the first switch to the idle task included: all goes on where it left off
      if and only if every lone yield departs at the very stack pointer of the task's departure before,
      or at 0 for the first process before its first. */
  lemma BootRunTakesUp(base: int, b: Params, m: Mem, c: Cpu, ms: seq<Move>)
    requires b.Valid() && Booted(base, m, c) && CanAll(base, Boot(b), BootStacks(base, m, c), ms)
    ensures var k := BootStacks(base, m, c);
      AllTakenUp(base, Boot(b), k, ms) <==> HistoryFits(base, Boot(b), k, BootDepartures(base), ms)
  {
    BootTogether(base, b, m, c);
    RunTakesUp(base, Boot(b), BootStacks(base, m, c), ms);
    PointersAreHistory(base, Boot(b), BootStacks(base, m, c), BootDepartures(base), ms);
  }

  /** The first event of the run that switches a task is a lone yield. */
  ghost predicate LoneYieldFirst(s: State, ms: seq<Move>)
    decreases |ms|
  {
    ms != [] &&
    var kind := KindOf(s, ms[0].e);
    kind == Lone || (kind !in {Switches, Ends} && LoneYieldFirst(Next(s, ms[0].e), ms[1..]))
  }

  lemma {:induction false} NeverDeparted(base: int, s: State, k: Stacks, left: Pointers, ms: seq<Move>)
    requires Core(s) && Together(base, s, k) && CanAll(base, s, k, ms)
    requires 0 <= base && left[s.current] == 0 && LoneYieldFirst(s, ms)
    ensures !HistoryFits(base, s, k, left, ms)
    decreases |ms|
  {
    if KindOf(s, ms[0].e) != Lone {
      NextParked(s, ms[0].e);
      NextKeepsCore(s, ms[0].e);
      MoveKeepsTogether(base, s, k, ms[0]);
      NeverDeparted(base, Next(s, ms[0].e), ms[0].next, Departures(base, s, k, ms[0], left), ms[1..]);
    }
  }

  /** The first process cannot yield alone before its first switch, whatever it did before: no run from
      boot that does so goes on as expected. */
  lemma FirstYieldFails(base: int, b: Params, m: Mem, c: Cpu, ms: seq<Move>)
    requires b.Valid() && Booted(base, m, c) && CanAll(base, Boot(b), BootStacks(base, m, c), ms)
    requires LoneYieldFirst(Boot(b), ms)
    ensures !AllTakenUp(base, Boot(b), BootStacks(base, m, c), ms)
  {
    BootTogether(base, b, m, c);
    NeverDeparted(base, Boot(b), BootStacks(base, m, c), BootDepartures(base), ms);
    BootRunTakesUp(base, b, m, c, ms);
  }
}
