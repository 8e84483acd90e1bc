/** What the tick counters measure: user, system and waiting time, each by the readings taken
    when a task changes mode or place. */
module Accounting {
  import opened Layout
  import opened Machine
  import opened Invariant
  import opened Startup

  /** Events that can start another task. */
  predicate GivesTurn(e: Event) { e.Clock? || e.Exiting? || e.Yielding? }

  /** The clock reading that a starting task is charged with. */
  function StartReading(e: Event): Word
    requires GivesTurn(e)
  {
    e.t3
  }

  /** The record of a task that was started: the time since its last update was waiting time. */
  function Started(st: Stats, now: Word): Stats {
    st.(ready := Accrue(st.ready, st.elapsed, now), elapsed := now, trans := (st.trans + 1) % WORD)
  }

  /** Two records agree except in the field that `sys_get_stats` fills in. */
  predicate SameRecord(a: Stats, b: Stats) { b == a.(remaining := b.remaining) }

  lemma HandoverRecords(tasks: Tasks, leaver: Slot, t: Slot, t2: Word, t3: Word, p: Slot)
    requires p != leaver
    ensures Handover(tasks, leaver, t, t2, t3)[p].stats ==
            if p == t then Started(tasks[p].stats, t3) else tasks[p].stats
  {
  }

  /** While a task is queued its record is left alone; when it starts, and only then, the whole
      wait is charged as ready time and a transition is counted. */
  lemma QueuedStep(s: State, e: Event, p: Slot)
    requires Core(s) && p in s.ready
    ensures var r := Next(s, e);
      if r.current == p then
        GivesTurn(e) && r.tasks[p].stats == Started(s.tasks[p].stats, StartReading(e))
      else p in r.ready && SameRecord(s.tasks[p].stats, r.tasks[p].stats)
  {
    match e
    case Clock(t1, t2, t3) =>
      TickCases(s, t1, t2, t3);
      if s.remaining == 1 {
        YieldRecords(s, t1, t2, t3, p);
      }
    case Forking(t1, t2) => ForkLeavesRecord(s, t1, t2, p);
    case Exiting(t2, t3) =>
      ExitShape(s, t2, t3);
      HandoverRecords(Vacate(s).tasks, s.current, Chosen(s), t2, t3, p);
    case Yielding(t1, t2, t3) => YieldRecords(s, t1, t2, t3, p);
    case Statting(pid, st) => GetStatsShape(s, pid, st);
    case Polling(addr, keys) => PollKeysShape(s, addr, keys);
    case _ => LightStep(s, e);
  }

  lemma YieldRecords(s: State, t1: Word, t2: Word, t3: Word, p: Slot)
    requires Core(s) && p in s.ready
    ensures var r := Yield(s, t1, t2, t3);
      if r.current == p then r.tasks[p].stats == Started(s.tasks[p].stats, t3)
      else p in r.ready && r.tasks[p].stats == s.tasks[p].stats
  {
    YieldRotates(s, t1, t2, t3);
    var s1 := Requeue(s, s.current, t1);
    HandoverRecords(s1.tasks, s.current, Chosen(s1), t2, t3, p);
    assert (s.ready + [s.current])[1..] == s.ready[1..] + [s.current];
  }

  lemma ForkLeavesRecord(s: State, t1: Word, t2: Word, p: Slot)
    requires Core(s) && p in s.ready
    ensures var r := Fork(s, t1, t2).0; r.tasks[p] == s.tasks[p] && p in r.ready && r.current == s.current
  {
  }

  /** A run in which task `p` starts at the last event and not before. */
  ghost predicate StartsAtEnd(s: State, es: seq<Event>, p: Slot)
    decreases |es|
  {
    es != [] &&
    var r := Next(s, es[0]);
    if |es| == 1 then r.current == p else r.current != p && StartsAtEnd(r, es[1..], p)
  }

  /** Ready ticks measure waiting time: over any run in which a queued task starts at the last
      event, its record changes exactly by the time from its last update to that start, charged as
      ready time, and one transition. */
  lemma {:induction false} WaitIsMeasured(s: State, es: seq<Event>, p: Slot, last: Event)
    requires Core(s) && p in s.ready && StartsAtEnd(s, es, p) && es[|es| - 1] == last
    ensures GivesTurn(last) && Execute(s, es).current == p
    ensures SameRecord(Started(s.tasks[p].stats, StartReading(last)), Execute(s, es).tasks[p].stats)
    decreases |es|
  {
    QueuedStep(s, es[0], p);
    if |es| == 1 {
      ExecuteOne(s, es);
    } else {
      StillWaiting(s, es, p);
      var r := Next(s, es[0]);
      WaitIsMeasured(r, es[1..], p, last);
      StartedAgrees(s.tasks[p].stats, r.tasks[p].stats, Execute(r, es[1..]).tasks[p].stats, StartReading(last));
    }
  }

  /** One event of a longer wait. */
  lemma StillWaiting(s: State, es: seq<Event>, p: Slot)
    requires Core(s) && p in s.ready && StartsAtEnd(s, es, p) && |es| > 1
    ensures var r := Next(s, es[0]); Core(r) && p in r.ready && StartsAtEnd(r, es[1..], p)
    ensures Execute(s, es) == Execute(Next(s, es[0]), es[1..]) && es[1..][|es[1..]| - 1] == es[|es| - 1]
  {
    NextKeepsCore(s, es[0]);
    QueuedStep(s, es[0], p);
  }

  lemma ExecuteOne(s: State, es: seq<Event>)
    requires |es| == 1
    ensures Execute(s, es) == Next(s, es[0])
  {
    assert Execute(s, es) == Execute(Next(s, es[0]), es[1..]);
  }

  lemma StartedAgrees(a: Stats, b: Stats, c: Stats, now: Word)
    requires SameRecord(a, b) && SameRecord(Started(b, now), c)
    ensures SameRecord(Started(a, now), c)
  {
  }

  /** A task that gives way is charged twice on its way out; together the two charges are exactly
      the time from its last update to the second reading, all of it system time. */
  lemma LeavingTimeIsSystem(s: State, t1: Word, t2: Word, t3: Word)
    requires Core(s) && s.current != s.idle && s.ready != []
    ensures var st := s.tasks[s.current].stats;
      Yield(s, t1, t2, t3).tasks[s.current].stats == st.(system := Accrue(st.system, st.elapsed, t2), elapsed := t2)
  {
    var st := s.tasks[s.current].stats;
    ChargesTelescope(st.system, st.elapsed, t1, t2);
    assert s.ready[0] in s.ready;
    LeaverRecord(Requeue(s, s.current, t1).tasks, s.current, s.ready[0], t2, t3);
  }

  lemma LeaverRecord(tasks: Tasks, leaver: Slot, t: Slot, t2: Word, t3: Word)
    requires t != leaver
    ensures Handover(tasks, leaver, t, t2, t3)[leaver].stats == ChargeSystem(tasks[leaver], t2).stats
  {
  }

  lemma ChargesTelescope(v: Word, elapsed: Word, a: Word, b: Word)
    ensures Accrue(Accrue(v, elapsed, a), a, b) == Accrue(v, elapsed, b)
  {
    var x := v + a - elapsed;
    assert x % WORD + b - a == (v + b - elapsed) - x / WORD * WORD;
    SameResidue(x % WORD + b - a, v + b - elapsed, x / WORD);
  }

  // ----- the running task

  /** What an event charges to the running task, always from its last update on: user time, system
      time, or, when it yields alone, system time and then a moment of ready time. */
  datatype Charge = Nothing | AsUser(t: Word) | AsSystem(t: Word) | AsTurn(t2: Word, t3: Word)

  function ChargeOf(s: State, e: Event): Charge {
    match e
    case Entering(t) => AsUser(t)
    case Leaving(t) => AsSystem(t)
    case Clock(_, t2, _) => if s.remaining == 1 && s.ready != [] then AsSystem(t2) else Nothing
    case Exiting(t2, _) => if s.current == s.idle then Nothing else AsSystem(t2)
    case Yielding(_, t2, t3) =>
      if s.current == s.idle then Nothing else if s.ready == [] then AsTurn(t2, t3) else AsSystem(t2)
    case _ => Nothing
  }

  /** Time by kind, as plain integers, and the last reading used. */
  datatype Times = Times(user: int, system: int, ready: int, last: Word)

  function TimesOf(c: Charge, last: Word): Times {
    match c
    case Nothing => Times(0, 0, 0, last)
    case AsUser(t) => Times(t - last, 0, 0, t)
    case AsSystem(t) => Times(0, t - last, 0, t)
    case AsTurn(t2, t3) => Times(0, t2 - last, t3 - t2, t3)
  }

  function Plus(a: Times, b: Times): Times {
    Times(a.user + b.user, a.system + b.system, a.ready + b.ready, b.last)
  }

  /** The times of a run during which one task runs: the sums over its charging events of the
      reading less the one before. */
  function Spent(s: State, es: seq<Event>, last: Word): Times
    decreases |es|
  {
    if es == [] then Times(0, 0, 0, last) else
      var t := TimesOf(ChargeOf(s, es[0]), last);
      Plus(t, Spent(Next(s, es[0]), es[1..], t.last))
  }

  /** Task `p` runs when each event of the run happens; at the last one it may give way. */
  ghost predicate RunsThroughout(s: State, es: seq<Event>, p: Slot)
    decreases |es|
  {
    es == [] || (s.current == p && RunsThroughout(Next(s, es[0]), es[1..], p))
  }

  /** Record `z` is record `st` with the times `w` added modulo 2^32. */
  predicate Grown(st: Stats, w: Times, z: Stats) {
    && z.user == (st.user + w.user) % WORD && z.system == (st.system + w.system) % WORD
    && z.ready == (st.ready + w.ready) % WORD && z.blocked == st.blocked && z.elapsed == w.last
  }

  lemma GrownTwice(a: Stats, v: Times, b: Stats, w: Times, c: Stats)
    requires Grown(a, v, b) && Grown(b, w, c)
    ensures Grown(a, Plus(v, w), c)
  {
    AddTwice(a.user, v.user, w.user);
    AddTwice(a.system, v.system, w.system);
    AddTwice(a.ready, v.ready, w.ready);
  }

  lemma AddTwice(x: int, v: int, w: int)
    ensures ((x + v) % WORD + w) % WORD == (x + (v + w)) % WORD
  {
    SameResidue((x + v) % WORD + w, x + (v + w), (x + v) / WORD);
  }

  /** The running task's record after an event, whether it goes on or gives way. */
  lemma RunningStep(s: State, e: Event)
    requires Core(s)
    ensures var st := s.tasks[s.current].stats;
      Grown(st, TimesOf(ChargeOf(s, e), st.elapsed), Next(s, e).tasks[s.current].stats)
  {
    match e
    case Clock(t1, t2, t3) => TickRecord(s, t1, t2, t3);
    case Yielding(t1, t2, t3) =>
      if s.current != s.idle {
        YieldRecord(s, t1, t2, t3);
      }
    case Exiting(t2, t3) =>
      if s.current != s.idle {
        ExitRecord(s, t2, t3);
      }
    case Forking(t1, t2) => ForkRecord(s, t1, t2);
    case _ => LightRecord(s, e);
  }

  lemma SystemGrown(st: Stats, t: Word)
    ensures Grown(st, Times(0, t - st.elapsed, 0, t), st.(system := Accrue(st.system, st.elapsed, t), elapsed := t))
  {
  }

  lemma TickRecord(s: State, t1: Word, t2: Word, t3: Word)
    requires Core(s)
    ensures var st := s.tasks[s.current].stats; var e := Event.Clock(t1, t2, t3);
      Grown(st, TimesOf(ChargeOf(s, e), st.elapsed), Tick(s, t1, t2, t3).tasks[s.current].stats)
  {
    TickCases(s, t1, t2, t3);
    if s.remaining == 1 && s.ready != [] {
      LeavingRecord(s, t1, t2, t3);
    }
  }

  lemma LeavingRecord(s: State, t1: Word, t2: Word, t3: Word)
    requires Core(s) && s.current != s.idle && s.ready != []
    ensures var st := s.tasks[s.current].stats;
      Grown(st, Times(0, t2 - st.elapsed, 0, t2), Yield(s, t1, t2, t3).tasks[s.current].stats)
  {
    LeavingTimeIsSystem(s, t1, t2, t3);
    SystemGrown(s.tasks[s.current].stats, t2);
  }

  lemma YieldRecord(s: State, t1: Word, t2: Word, t3: Word)
    requires Core(s) && s.current != s.idle
    ensures var st := s.tasks[s.current].stats; var e := Yielding(t1, t2, t3);
      Grown(st, TimesOf(ChargeOf(s, e), st.elapsed), Yield(s, t1, t2, t3).tasks[s.current].stats)
  {
    if s.ready == [] {
      LoneYieldRecord(s, t1, t2, t3);
    } else {
      LeavingRecord(s, t1, t2, t3);
    }
  }

  lemma ForkRecord(s: State, t1: Word, t2: Word)
    requires Core(s)
    ensures Next(s, Forking(t1, t2)).tasks[s.current] == s.tasks[s.current]
  {
    assert s.free != [] ==> s.free[0] in s.free;
  }

  lemma LightRecord(s: State, e: Event)
    requires Light(e)
    ensures var st := s.tasks[s.current].stats;
      Grown(st, TimesOf(ChargeOf(s, e), st.elapsed), Next(s, e).tasks[s.current].stats)
  {
    if e.Statting? {
      GetStatsShape(s, e.pid, e.st);
    } else if e.Polling? {
      PollKeysShape(s, e.addr, e.keys);
    }
  }

  lemma LoneYieldRecord(s: State, t1: Word, t2: Word, t3: Word)
    requires Core(s) && s.current != s.idle && s.ready == []
    ensures var st := s.tasks[s.current].stats;
      Grown(st, Times(0, t2 - st.elapsed, t3 - t2, t3), Yield(s, t1, t2, t3).tasks[s.current].stats)
  {
    var s1 := Requeue(s, s.current, t1);
    assert s1.ready == [s.current] && Chosen(s1) == s.current;
    ThreeCharges(s.tasks[s.current], t1, t2, t3);
  }

  lemma ThreeCharges(t: Task, t1: Word, t2: Word, t3: Word)
    ensures Grown(t.stats, Times(0, t2 - t.stats.elapsed, t3 - t2, t3),
                  ChargeReady(ChargeSystem(ChargeSystem(t, t1), t2), t3).stats)
  {
    ChargesTelescope(t.stats.system, t.stats.elapsed, t1, t2);
  }

  lemma ExitRecord(s: State, t2: Word, t3: Word)
    requires Core(s) && s.current != s.idle
    ensures var st := s.tasks[s.current].stats;
      Exit(s, t2, t3).tasks[s.current].stats == st.(system := Accrue(st.system, st.elapsed, t2), elapsed := t2)
  {
    var s1 := Vacate(s);
    assert s.ready != [] ==> s.ready[0] in s.ready;
    LeaverRecord(s1.tasks, s.current, Chosen(s1), t2, t3);
  }

  /** Modes over runs: while a task stays running, its user ticks grow by the time up to each entry
      that charges user time, its system ticks by the time up to each return and up to giving way,
      each counted from its last update before, modulo 2^32. */
  lemma {:induction false} ModesAreMeasured(s: State, es: seq<Event>, p: Slot)
    requires Core(s) && RunsThroughout(s, es, p)
    ensures var st := s.tasks[p].stats;
      Grown(st, Spent(s, es, st.elapsed), Execute(s, es).tasks[p].stats)
    decreases |es|
  {
    if es != [] {
      var r := Next(s, es[0]);
      var st, z := s.tasks[p].stats, r.tasks[p].stats;
      RunningStep(s, es[0]);
      NextKeepsCore(s, es[0]);
      ModesAreMeasured(r, es[1..], p);
      GrownTwice(st, TimesOf(ChargeOf(s, es[0]), st.elapsed), z, Spent(r, es[1..], z.elapsed),
                 Execute(r, es[1..]).tasks[p].stats);
    }
  }

  // ----- transitions

  /** An event starts task `p`: it runs afterwards and did not before, or it yields alone and is started
      again. */
  predicate StartsTask(s: State, e: Event, p: Slot) {
    Next(s, e).current == p && (s.current != p || (e.Yielding? && s.current != s.idle && s.ready == []))
  }

  /** The number of starts of `p` in a run. */
  function Starts(s: State, es: seq<Event>, p: Slot): nat
    decreases |es|
  {
    if es == [] then 0 else (if StartsTask(s, es[0], p) then 1 else 0) + Starts(Next(s, es[0]), es[1..], p)
  }

  /** Slot `p` is in use in every state of the run. */
  ghost predicate NeverFree(s: State, es: seq<Event>, p: Slot)
    decreases |es|
  {
    p !in s.free && (es == [] || NeverFree(Next(s, es[0]), es[1..], p))
  }

  lemma HandoverTrans(tasks: Tasks, leaver: Slot, t: Slot, t2: Word, t3: Word, p: Slot)
    ensures Handover(tasks, leaver, t, t2, t3)[p].stats.trans
         == if p == t then (tasks[p].stats.trans + 1) % WORD else tasks[p].stats.trans
  {
  }

  lemma YieldTrans(s: State, t1: Word, t2: Word, t3: Word, p: Slot)
    requires Core(s) && s.current != s.idle
    ensures var r := Yield(s, t1, t2, t3);
      r.tasks[p].stats.trans == if p == r.current then (s.tasks[p].stats.trans + 1) % WORD else s.tasks[p].stats.trans
  {
    var s1 := Requeue(s, s.current, t1);
    HandoverTrans(s1.tasks, s.current, Chosen(s1), t2, t3, p);
  }

  lemma ExitTrans(s: State, t2: Word, t3: Word, p: Slot)
    requires Core(s) && s.current != s.idle
    ensures var r := Exit(s, t2, t3);
      r.tasks[p].stats.trans == if p == r.current then (s.tasks[p].stats.trans + 1) % WORD else s.tasks[p].stats.trans
  {
    var s1 := Vacate(s);
    HandoverTrans(s1.tasks, s.current, Chosen(s1), t2, t3, p);
  }

  lemma LightTrans(s: State, e: Event, p: Slot)
    requires Light(e)
    ensures Next(s, e).tasks[p].stats.trans == s.tasks[p].stats.trans && Next(s, e).current == s.current
  {
    if e.Statting? {
      GetStatsShape(s, e.pid, e.st);
    } else if e.Polling? {
      PollKeysShape(s, e.addr, e.keys);
    }
  }

  /** An event counts one transition of the task that it starts and none of any other. */
  ghost predicate CountsStart(s: State, e: Event, p: Slot) {
    Grew(s.tasks[p].stats.trans, if StartsTask(s, e, p) then 1 else 0, Next(s, e).tasks[p].stats.trans)
  }

  predicate Grew(v: Word, n: nat, w: Word) { w == (v + n) % WORD }

  lemma GrewTwice(u: Word, m: nat, v: Word, n: nat, w: Word)
    requires Grew(u, m, v) && Grew(v, n, w)
    ensures Grew(u, m + n, w)
  {
    AddTwice(u, m, n);
  }

  lemma TransStep(s: State, e: Event, p: Slot)
    requires Core(s) && p !in s.free
    ensures CountsStart(s, e, p)
  {
    if Enabled(s, e) {
      match e
      case Clock(_, _, _) => ClockCounts(s, e, p);
      case Forking(_, _) => ForkCounts(s, e, p);
      case Exiting(_, _) => ExitCounts(s, e, p);
      case Yielding(_, _, _) => YieldCounts(s, e, p);
      case _ => LightTrans(s, e, p);
    }
  }

  lemma ForkCounts(s: State, e: Event, p: Slot)
    requires Core(s) && e.Forking? && s.current != s.idle && p !in s.free
    ensures CountsStart(s, e, p)
  {
    ForkLeavesInUse(s, e.t1, e.t2, p);
  }

  lemma ClockCounts(s: State, e: Event, p: Slot)
    requires Core(s) && e.Clock?
    ensures CountsStart(s, e, p)
  {
    TickCases(s, e.t1, e.t2, e.t3);
    if s.remaining == 1 && s.ready != [] {
      YieldRotates(s, e.t1, e.t2, e.t3);
      YieldTrans(s, e.t1, e.t2, e.t3, p);
    }
  }

  lemma ExitCounts(s: State, e: Event, p: Slot)
    requires Core(s) && e.Exiting? && s.current != s.idle
    ensures CountsStart(s, e, p)
  {
    ExitShape(s, e.t2, e.t3);
    ExitTrans(s, e.t2, e.t3, p);
  }

  lemma YieldCounts(s: State, e: Event, p: Slot)
    requires Core(s) && e.Yielding? && s.current != s.idle
    ensures CountsStart(s, e, p)
  {
    YieldRotates(s, e.t1, e.t2, e.t3);
    YieldTrans(s, e.t1, e.t2, e.t3, p);
  }

  lemma ForkLeavesInUse(s: State, t1: Word, t2: Word, p: Slot)
    requires Core(s) && p !in s.free
    ensures var r := Fork(s, t1, t2).0; r.tasks[p] == s.tasks[p] && r.current == s.current
  {
  }

  /** Transitions are counted exactly, over any run during which the slot stays in use: `trans` grows by the
      number of events that start the task, a yield alone included, modulo 2^32. */
  lemma {:induction false} TransCountsStarts(s: State, es: seq<Event>, p: Slot)
    requires Core(s) && NeverFree(s, es, p)
    ensures Grew(s.tasks[p].stats.trans, Starts(s, es, p), Execute(s, es).tasks[p].stats.trans)
    decreases |es|
  {
    if es != [] {
      var r, n := FirstStart(s, es, p);
      TransCountsStarts(r, es[1..], p);
      FirstAndRest(s, r, Execute(s, es), p, n, Starts(r, es[1..], p), Starts(s, es, p));
    }
  }

  lemma FirstAndRest(s: State, r: State, z: State, p: Slot, m: nat, n: nat, k: nat)
    requires Grew(s.tasks[p].stats.trans, m, r.tasks[p].stats.trans) && k == m + n
    requires Grew(r.tasks[p].stats.trans, n, z.tasks[p].stats.trans)
    ensures Grew(s.tasks[p].stats.trans, k, z.tasks[p].stats.trans)
  {
    GrewTwice(s.tasks[p].stats.trans, m, r.tasks[p].stats.trans, n, z.tasks[p].stats.trans);
  }

  /** The first event of a run, the state `r` after it and the number `n` of its starts. */
  lemma {:induction false} FirstStart(s: State, es: seq<Event>, p: Slot) returns (r: State, n: nat)
    requires Core(s) && NeverFree(s, es, p) && es != []
    ensures Core(r) && NeverFree(r, es[1..], p) && Execute(s, es) == Execute(r, es[1..])
    ensures Grew(s.tasks[p].stats.trans, n, r.tasks[p].stats.trans)
    ensures Starts(s, es, p) == n + Starts(r, es[1..], p)
  {
    r, n := Next(s, es[0]), if StartsTask(s, es[0], p) then 1 else 0;
    TransStep(s, es[0], p);
    NextKeepsCore(s, es[0]);
  }

  /** From boot on: the count is that of all starts so far, of the first process and of the idle task. */
  lemma {:induction false} TransFromBoot(b: Params, es: seq<Event>, p: Slot)
    requires b.Valid() && p < 2 && NeverFree(Boot(b), es, p)
    ensures Execute(Boot(b), es).tasks[p].stats.trans == Starts(Boot(b), es, p) % WORD
  {
    BootInv(b);
    TransCountsStarts(Boot(b), es, p);
  }

  /** From its fork on: the same of a child. */
  lemma {:induction false} TransFromFork(s: State, t1: Word, t2: Word, es: seq<Event>)
    requires Inv(s) && s.current != s.idle && s.free != []
    requires NeverFree(Next(s, Forking(t1, t2)), es, s.free[0])
    ensures var r := Next(s, Forking(t1, t2)); var c := s.free[0];
      Execute(r, es).tasks[c].stats.trans == Starts(r, es, c) % WORD
  {
    NextKeepsCore(s, Forking(t1, t2));
    ForkHasRoom(s);
    TransCountsStarts(Next(s, Forking(t1, t2)), es, s.free[0]);
  }

  // ----- interrupts and system calls

  /** A stay in the kernel from its entry at time `enter` to its return at time `leave`: a keyboard
      interrupt, a clock interrupt with its tick, or a system call that switches no task. */
  datatype Visit =
    | Key(enter: Word, leave: Word)
    | Timer(tick: Event, enter: Word, leave: Word)
    | Call(call: Event, enter: Word, leave: Word)
  {
    predicate Valid() { (Timer? ==> tick.Clock?) && (Call? ==> call.Forking? || call.Statting? || call.Polling?) }
  }

  /** The handlers of both interrupts call `user_to_system` first and `system_to_user` last; the
      handler of system calls calls neither. */
  function EventsOf(v: Visit): seq<Event> {
    match v
    case Key(enter, leave) => [Entering(enter), Leaving(leave)]
    case Timer(tick, enter, leave) => [Entering(enter), tick, Leaving(leave)]
    case Call(call, _, _) => [call]
  }

  function AllEvents(visits: seq<Visit>): seq<Event> {
    if visits == [] then [] else EventsOf(visits[0]) + AllEvents(visits[1..])
  }

  /** The true time in user mode before and between the visits, from a return at time `since`. */
  function UserTime(visits: seq<Visit>, since: Word): int
    decreases |visits|
  {
    if visits == [] then 0 else visits[0].enter - since + UserTime(visits[1..], visits[0].leave)
  }

  /** The true time inside the handlers of interrupts, or inside system calls. */
  function KernelTime(visits: seq<Visit>, calls: bool): int {
    if visits == [] then 0 else
      (if visits[0].Call? == calls then visits[0].leave - visits[0].enter else 0) + KernelTime(visits[1..], calls)
  }

  /** The time of the last return. */
  function End(visits: seq<Visit>, since: Word): Word
    decreases |visits|
  {
    if visits == [] then since else End(visits[1..], visits[0].leave)
  }

  /** What a series of visits charges, up to the return of an interrupt. */
  function VisitsTimes(visits: seq<Visit>, since: Word): Times {
    Times(UserTime(visits, since) + KernelTime(visits, true), KernelTime(visits, false), 0, End(visits, since))
  }

  /** A tick that charges the running task anything also switches to another. */
  lemma ChargingTickSwitches(s: State, t1: Word, t2: Word, t3: Word)
    requires Core(s) && ChargeOf(s, Event.Clock(t1, t2, t3)) != Nothing
    ensures Next(s, Event.Clock(t1, t2, t3)).current != s.current
  {
    TickCases(s, t1, t2, t3);
    YieldRotates(s, t1, t2, t3);
  }

  /** What a visit charges, from a last update at time `last`. */
  function VisitTimes(v: Visit, last: Word): Times {
    if v.Call? then Times(0, 0, 0, last) else Times(v.enter - last, v.leave - v.enter, 0, v.leave)
  }

  /** An interrupt charges the time up to its entry as user time and the time to its return as
      system time, a system call nothing; `r` is the state it returns in. */
  lemma VisitCharges(s: State, v: Visit, es: seq<Event>, p: Slot, last: Word) returns (r: State)
    requires v.Valid() && Core(s) && RunsThroughout(s, EventsOf(v) + es, p)
    ensures Core(r) && RunsThroughout(r, es, p)
    ensures var w := VisitTimes(v, last); Spent(s, EventsOf(v) + es, last) == Plus(w, Spent(r, es, w.last))
  {
    match v
    case Call(call, _, _) =>
      r := NextTimes(s, call, es, p, last);
    case Key(enter, leave) =>
      assert EventsOf(v) + es == [Entering(enter)] + ([Leaving(leave)] + es);
      r := EnterTimes(s, enter, [Leaving(leave)] + es, p, last);
      r := LeaveTimes(r, leave, es, p, enter);
    case Timer(_, _, _) => r := TimerCharges(s, v, es, p, last);
  }

  lemma TimerCharges(s: State, v: Visit, es: seq<Event>, p: Slot, last: Word) returns (r: State)
    requires v.Timer? && v.tick.Clock? && Core(s) && RunsThroughout(s, EventsOf(v) + es, p)
    ensures Core(r) && RunsThroughout(r, es, p)
    ensures var w := VisitTimes(v, last); Spent(s, EventsOf(v) + es, last) == Plus(w, Spent(r, es, w.last))
  {
    var rest := [v.tick] + ([Leaving(v.leave)] + es);
    assert EventsOf(v) + es == [Entering(v.enter)] + rest;
    r := EnterTimes(s, v.enter, rest, p, last);
    r := TickAndLeave(r, v.tick, v.leave, es, p, v.enter);
  }

  lemma TickAndLeave(s: State, tick: Event, leave: Word, es: seq<Event>, p: Slot, last: Word) returns (r: State)
    requires tick.Clock? && Core(s) && RunsThroughout(s, [tick] + ([Leaving(leave)] + es), p)
    ensures Core(r) && RunsThroughout(r, es, p)
    ensures Spent(s, [tick] + ([Leaving(leave)] + es), last)
         == Plus(Times(0, leave - last, 0, leave), Spent(r, es, leave))
  {
    r := TickTimes(s, tick, [Leaving(leave)] + es, p, last);
    r := LeaveTimes(r, leave, es, p, last);
  }

  /** One event of a run during which the same task runs, and the state `r` after it. */
  lemma NextTimes(s: State, e: Event, es: seq<Event>, p: Slot, last: Word) returns (r: State)
    requires Core(s) && RunsThroughout(s, [e] + es, p)
    ensures r == Next(s, e) && s.current == p && Core(r) && RunsThroughout(r, es, p)
    ensures var t := TimesOf(ChargeOf(s, e), last); Spent(s, [e] + es, last) == Plus(t, Spent(r, es, t.last))
  {
    r := Next(s, e);
    NextKeepsCore(s, e);
    assert ([e] + es)[1..] == es;
  }

  lemma EnterTimes(s: State, t: Word, es: seq<Event>, p: Slot, last: Word) returns (r: State)
    requires Core(s) && RunsThroughout(s, [Entering(t)] + es, p)
    ensures Core(r) && RunsThroughout(r, es, p)
    ensures Spent(s, [Entering(t)] + es, last) == Plus(Times(t - last, 0, 0, t), Spent(r, es, t))
  {
    r := NextTimes(s, Entering(t), es, p, last);
  }

  lemma LeaveTimes(s: State, t: Word, es: seq<Event>, p: Slot, last: Word) returns (r: State)
    requires Core(s) && RunsThroughout(s, [Leaving(t)] + es, p)
    ensures Core(r) && RunsThroughout(r, es, p)
    ensures Spent(s, [Leaving(t)] + es, last) == Plus(Times(0, t - last, 0, t), Spent(r, es, t))
  {
    r := NextTimes(s, Leaving(t), es, p, last);
  }

  /** A tick inside an interrupt whose task still runs afterwards. */
  lemma TickTimes(s: State, tick: Event, tail: seq<Event>, p: Slot, last: Word) returns (r: State)
    requires Core(s) && tick.Clock? && tail != [] && RunsThroughout(s, [tick] + tail, p)
    ensures Core(r) && RunsThroughout(r, tail, p)
    ensures Spent(s, [tick] + tail, last) == Spent(r, tail, last)
  {
    r := NextTimes(s, tick, tail, p, last);
    if ChargeOf(s, tick) != Nothing {
      ChargingTickSwitches(s, tick.t1, tick.t2, tick.t3);
    }
  }

  /** Over any series of visits the system ticks get the time inside interrupt handlers, and the
      user ticks, with what is not charged yet, the time in user mode and inside system calls. */
  lemma {:induction false} VisitsCharge(s: State, visits: seq<Visit>, p: Slot, last: Word, since: Word)
    requires forall v :: v in visits ==> v.Valid()
    requires Core(s) && RunsThroughout(s, AllEvents(visits), p)
    ensures var w := Spent(s, AllEvents(visits), last);
      && w.user + End(visits, since) - w.last == UserTime(visits, since) + KernelTime(visits, true) + since - last
      && w.system == KernelTime(visits, false) && w.ready == 0
      && (visits != [] && !visits[|visits| - 1].Call? ==> w.last == End(visits, since))
    decreases |visits|
  {
    if visits != [] {
      var v, rest := visits[0], visits[1..];
      var r := VisitCharges(s, v, AllEvents(rest), p, last);
      VisitsCharge(r, rest, p, VisitTimes(v, last).last, v.leave);
    }
  }

  /** Up to the return of an interrupt, the user ticks of a task that stays running grow by its time
      in user mode and its time inside system calls together, modulo 2^32. */
  lemma UserTicksCountCalls(s: State, visits: seq<Visit>, p: Slot)
    requires (forall v :: v in visits ==> v.Valid()) && visits != [] && !visits[|visits| - 1].Call?
    requires Core(s) && RunsThroughout(s, AllEvents(visits), p)
    ensures var st := s.tasks[p].stats;
      Grown(st, VisitsTimes(visits, st.elapsed), Execute(s, AllEvents(visits)).tasks[p].stats)
  {
    var last := s.tasks[p].stats.elapsed;
    ModesAreMeasured(s, AllEvents(visits), p);
    VisitsCharge(s, visits, p, last, last);
    assert Spent(s, AllEvents(visits), last) == VisitsTimes(visits, last);
  }

  /** The user ticks grew by exactly `time`, modulo 2^32. */
  predicate UserGrew(st: Stats, time: int, z: Stats) { z.user == (st.user + time) % WORD }

  predicate NoTime(time: int) { time % WORD == 0 }

  /** So they measure the time in user mode if and only if the time inside system calls is none, or
      a multiple of 2^32. */
  lemma UserTicksAreUserTime(s: State, visits: seq<Visit>, p: Slot)
    requires (forall v :: v in visits ==> v.Valid()) && visits != [] && !visits[|visits| - 1].Call?
    requires Core(s) && RunsThroughout(s, AllEvents(visits), p)
    ensures var st := s.tasks[p].stats;
      UserGrew(st, UserTime(visits, st.elapsed), Execute(s, AllEvents(visits)).tasks[p].stats)
      <==> NoTime(KernelTime(visits, true))
  {
    UserTicksCountCalls(s, visits, p);
    UserPart(s.tasks[p].stats, visits, Execute(s, AllEvents(visits)).tasks[p].stats);
  }

  lemma UserPart(st: Stats, visits: seq<Visit>, z: Stats)
    requires Grown(st, VisitsTimes(visits, st.elapsed), z)
    ensures UserGrew(st, UserTime(visits, st.elapsed), z) <==> NoTime(KernelTime(visits, true))
  {
    SameSum(st.user + UserTime(visits, st.elapsed), KernelTime(visits, true));
  }

  lemma SameSum(a: int, b: int)
    ensures (a + b) % WORD == a % WORD <==> b % WORD == 0
  {
    assert a == a / WORD * WORD + a % WORD && b == b / WORD * WORD + b % WORD;
    if (a + b) % WORD == a % WORD {
      assert b == ((a + b) / WORD - a / WORD) * WORD;
      SameResidue(b, 0, a / WORD - (a + b) / WORD);
    }
    if b % WORD == 0 {
      SameResidue(a + b, a, -(b / WORD));
    }
  }

  /** How the kernel can be entered from user mode. The system call handler charges nothing. */
  datatype Entry = ByClock(t1: Word, t2: Word, t3: Word) | ByKey | ByCall(call: Event)

  predicate IsCall(e: Event) { e.Forking? || e.Exiting? || e.Yielding? || e.Statting? || e.Polling? }

  function EntryEvents(entry: Entry, enter: Word): seq<Event> {
    match entry
    case ByClock(t1, t2, t3) => [Entering(enter), Event.Clock(t1, t2, t3)]
    case ByKey => [Entering(enter)]
    case ByCall(call) => [call]
  }

  lemma AccrueNothing(v: Word, a: Word, b: Word)
    ensures Accrue(v, a, b) == v <==> a == b
  {
  }

  /** User time is measured exactly for entries by interrupt: of the time `enter` - last update that
      the running task spent in user mode, the kernel charges just that as user time if and only if
      it is entered by an interrupt, or no time passed. */
  lemma UserTimeIsMeasured(s: State, entry: Entry, enter: Word)
    requires Core(s) && (entry.ByCall? ==> IsCall(entry.call))
    ensures var st := s.tasks[s.current].stats;
      Execute(s, EntryEvents(entry, enter)).tasks[s.current].stats.user == Accrue(st.user, st.elapsed, enter)
      <==> !entry.ByCall? || enter == st.elapsed
  {
    match entry
    case ByClock(t1, t2, t3) => ClockEntry(s, enter, t1, t2, t3);
    case ByKey => KeyEntry(s, enter);
    case ByCall(call) =>
      CallEntry(s, call);
      AccrueNothing(s.tasks[s.current].stats.user, s.tasks[s.current].stats.elapsed, enter);
  }

  lemma KeyEntry(s: State, enter: Word)
    ensures var st := s.tasks[s.current].stats;
      Execute(s, [Entering(enter)]).tasks[s.current].stats.user == Accrue(st.user, st.elapsed, enter)
  {
    ExecuteOne(s, [Entering(enter)]);
  }

  lemma ClockEntry(s: State, enter: Word, t1: Word, t2: Word, t3: Word)
    requires Core(s)
    ensures var st := s.tasks[s.current].stats;
      Execute(s, EntryEvents(ByClock(t1, t2, t3), enter)).tasks[s.current].stats.user
      == Accrue(st.user, st.elapsed, enter)
  {
    var tick := Event.Clock(t1, t2, t3);
    var s1 := Next(s, Entering(enter));
    NextKeepsCore(s, Entering(enter));
    TickRecord(s1, t1, t2, t3);
    ExecuteOne(s1, [tick]);
    assert [Entering(enter), tick][1..] == [tick];
  }

  lemma CallEntry(s: State, call: Event)
    requires Core(s) && IsCall(call)
    ensures Execute(s, [call]).tasks[s.current].stats.user == s.tasks[s.current].stats.user
  {
    ExecuteOne(s, [call]);
    CallChargesNoUserTime(s, call);
  }

  lemma CallChargesNoUserTime(s: State, call: Event)
    requires Core(s) && IsCall(call)
    ensures Next(s, call).tasks[s.current].stats.user == s.tasks[s.current].stats.user
  {
    var last := s.tasks[s.current].stats.elapsed;
    RunningStep(s, call);
    assert TimesOf(ChargeOf(s, call), last).user == 0;
  }

  /** A yield after some time in user mode is an entry for which it fails: the user ticks stay as
      they are, and the user time is charged as system time along with the kernel's own. */
  lemma YieldHidesUserTime(s: State, enter: Word, t1: Word, t2: Word, t3: Word)
    requires Core(s) && s.current != s.idle
    requires enter != s.tasks[s.current].stats.elapsed
    ensures var st := s.tasks[s.current].stats; var z := Yield(s, t1, t2, t3).tasks[s.current].stats;
      && z.user == st.user != Accrue(st.user, st.elapsed, enter)
      && z.system == Accrue(Accrue(st.system, st.elapsed, enter), enter, t2)
  {
    var st := s.tasks[s.current].stats;
    RunningStep(s, Yielding(t1, t2, t3));
    AccrueNothing(st.user, st.elapsed, enter);
    ChargesTelescope(st.system, st.elapsed, enter, t2);
  }

  /** The first process, yielding one tick after boot, is an instance. */
  lemma FirstYieldHidesUserTime(b: Params, t1: Word, t2: Word, t3: Word)
    requires b.Valid() && b.u1 + 1 < WORD
    ensures var s := Boot(b); var z := Yield(s, t1, t2, t3).tasks[1].stats;
      z.user == 0 && Accrue(s.tasks[1].stats.user, s.tasks[1].stats.elapsed, b.u1 + 1) == 1
  {
    BootInv(b);
    YieldHidesUserTime(Boot(b), b.u1 + 1, t1, t2, t3);
  }
}
