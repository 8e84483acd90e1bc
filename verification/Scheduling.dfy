/** Round-robin theorems: exact waiting times, the period of the schedule, and when the idle
    task runs. */
module Scheduling {
  import opened Layout
  import opened Machine
  import opened Invariant
  import opened Startup

  /** Sum of the quanta of the tasks queued before `p`. */
  function Ahead(tasks: Tasks, q: seq<Slot>, p: Slot): int {
    if q == [] || q[0] == p then 0 else tasks[q[0]].quantum + Ahead(tasks, q[1..], p)
  }

  /** Clock ticks until the queued task `p` starts, if nobody gives up the processor early. */
  function Wait(s: State, p: Slot): int { s.remaining + Ahead(s.tasks, s.ready, p) }

  function IsClock(e: Event): int { if e.Clock? then 1 else 0 }

  function Clocks(es: seq<Event>): nat
    decreases |es|
  {
    if es == [] then 0 else IsClock(es[0]) + Clocks(es[1..])
  }

  lemma {:induction false} AheadSame(a: Tasks, b: Tasks, q: seq<Slot>, p: Slot)
    requires forall i :: i in q ==> a[i].quantum == b[i].quantum
    ensures Ahead(a, q, p) == Ahead(b, q, p)
  {
    if q != [] && q[0] != p {
      AheadSame(a, b, q[1..], p);
    }
  }

  lemma {:induction false} AheadPrefix(tasks: Tasks, q: seq<Slot>, x: Slot, p: Slot)
    requires p in q
    ensures Ahead(tasks, q + [x], p) == Ahead(tasks, q, p)
  {
    assert (q + [x])[1..] == q[1..] + [x];
    if q[0] != p {
      AheadPrefix(tasks, q[1..], x, p);
    }
  }

  lemma {:induction false} AheadNonNegative(tasks: Tasks, q: seq<Slot>, p: Slot)
    requires forall i :: i in q ==> tasks[i].quantum >= 1
    ensures Ahead(tasks, q, p) >= 0
  {
    if q != [] && q[0] != p {
      AheadNonNegative(tasks, q[1..], p);
    }
  }

  /** Waiting tasks move up by exactly what the running task had left when it gives way. */
  lemma RotationWait(s: State, p: Slot, t1: Word, t2: Word, t3: Word)
    requires Core(s) && p in s.ready
    ensures var r := Yield(s, t1, t2, t3);
      if p == s.ready[0] then r.current == p && Wait(s, p) == s.remaining
      else p in r.ready && Wait(r, p) == Wait(s, p) - s.remaining
  {
    YieldRotates(s, t1, t2, t3);
    var r := Yield(s, t1, t2, t3);
    if p != s.ready[0] {
      assert r.ready == s.ready[1..] + [s.current];
      AheadPrefix(r.tasks, s.ready[1..], s.current, p);
      AheadSame(r.tasks, s.tasks, s.ready[1..], p);
    }
  }

  lemma ExitWait(s: State, p: Slot, t2: Word, t3: Word)
    requires Core(s) && p in s.ready
    ensures var r := Exit(s, t2, t3);
      if p == s.ready[0] then r.current == p && Wait(s, p) == s.remaining
      else p in r.ready && Wait(r, p) == Wait(s, p) - s.remaining
  {
    ExitShape(s, t2, t3);
    AheadSame(Exit(s, t2, t3).tasks, s.tasks, s.ready[1..], p);
  }

  lemma TickWait(s: State, p: Slot, t1: Word, t2: Word, t3: Word)
    requires Core(s) && p in s.ready
    ensures Wait(s, p) >= 1
    ensures var r := Tick(s, t1, t2, t3);
      if Wait(s, p) == 1 then r.current == p
      else p in r.ready && r.current != p && Wait(r, p) == Wait(s, p) - 1
  {
    TickCases(s, t1, t2, t3);
    RotationWait(s, p, t1, t2, t3);
    TickKeepsCore(s, t1, t2, t3);
    AheadNonNegative(s.tasks, s.ready, p);
    if p != s.ready[0] {
      AheadNonNegative(s.tasks, s.ready[1..], p);
    }
  }

  lemma ForkWait(s: State, p: Slot, t1: Word, t2: Word)
    requires Core(s) && p in s.ready
    ensures var r := Fork(s, t1, t2).0; p in r.ready && r.current == s.current && Wait(r, p) == Wait(s, p)
  {
    var r := Fork(s, t1, t2).0;
    AheadSame(r.tasks, s.tasks, s.ready, p);
    if s.free != [] {
      AheadPrefix(r.tasks, s.ready, s.free[0], p);
    }
  }

  predicate GivesWay(e: Event) { e.Yielding? || e.Exiting? }

  /** What one event does to the waiting time of a queued task `p`: a tick takes exactly 1 off
      or starts `p`; a yield or an exit takes `remaining` off or starts `p`; anything else,
      a fork included, leaves it as it was. */
  lemma WaitStep(s: State, e: Event, p: Slot)
    requires Core(s) && p in s.ready
    ensures var r := Next(s, e);
      if (e.Clock? && Wait(s, p) == 1) || (GivesWay(e) && p == s.ready[0]) then r.current == p
      else p in r.ready && r.current != p
           && Wait(r, p) == Wait(s, p) - if e.Clock? then 1 else if GivesWay(e) then s.remaining else 0
  {
    NextKeepsCore(s, e);
    if Enabled(s, e) {
      match e
      case Clock(t1, t2, t3) => TickWait(s, p, t1, t2, t3);
      case Forking(t1, t2) => ForkWait(s, p, t1, t2);
      case Exiting(t2, t3) => ExitWait(s, p, t2, t3);
      case Yielding(t1, t2, t3) => RotationWait(s, p, t1, t2, t3);
      case _ =>
        LightStep(s, e);
        AheadSame(Next(s, e).tasks, s.tasks, s.ready, p);
    }
  }

  /** Bounded waiting: whatever the other processes do, a queued task has started once as many
      ticks have passed as its waiting time says. */
  lemma {:induction false} StartsInTime(s: State, es: seq<Event>, p: Slot)
    requires Core(s) && p in s.ready && Clocks(es) >= Wait(s, p)
    ensures exists n :: 0 < n <= |es| && Execute(s, es[..n]).current == p
    decreases |es|
  {
    TickWait(s, p, 0, 0, 0);
    NextKeepsCore(s, es[0]);
    WaitStep(s, es[0], p);
    var r := Next(s, es[0]);
    if r.current == p {
      assert Execute(s, es[..1]) == Execute(r, es[..1][1..]);
    } else {
      StartsInTime(r, es[1..], p);
      var n :| 0 < n <= |es[1..]| && Execute(r, es[1..][..n]).current == p;
      assert es[..n + 1][1..] == es[1..][..n];
      assert Execute(s, es[..n + 1]).current == p;
    }
  }

  /** The bound is exact: as long as nobody yields or exits, a task whose waiting time has not
      elapsed is still queued, with the elapsed ticks taken off. */
  lemma {:induction false} NotBefore(s: State, es: seq<Event>, p: Slot)
    requires Core(s) && p in s.ready && Clocks(es) < Wait(s, p)
    requires forall e :: e in es ==> !GivesWay(e)
    ensures var r := Execute(s, es); p in r.ready && r.current != p && Wait(r, p) == Wait(s, p) - Clocks(es)
    decreases |es|
  {
    if es != [] {
      NextKeepsCore(s, es[0]);
      WaitStep(s, es[0], p);
      NotBefore(Next(s, es[0]), es[1..], p);
    }
  }

  lemma {:induction false} AheadBound(tasks: Tasks, q: seq<Slot>, p: Slot)
    requires p in q && forall i :: i in q ==> tasks[i].quantum == DEFAULT_QUANTUM
    ensures Ahead(tasks, q, p) <= DEFAULT_QUANTUM * (|q| - 1)
  {
    if q[0] != p {
      AheadBound(tasks, q[1..], p);
    }
  }

  /** At most eight tasks are queued, each with a quantum of ten ticks, so none waits for longer than
      eighty ticks. */
  lemma WaitBound(s: State, p: Slot)
    requires Reachable(s) && p in s.ready
    ensures Wait(s, p) <= DEFAULT_QUANTUM * (NR_TASKS - 2)
  {
    ReachableInv(s);
    AheadBound(s.tasks, s.ready, p);
  }

  /** In every reachable state a queued task has started once eighty ticks have passed, whatever
      else happens. */
  lemma StartsWithin80(s: State, es: seq<Event>, p: Slot)
    requires Reachable(s) && p in s.ready && Clocks(es) >= DEFAULT_QUANTUM * (NR_TASKS - 2)
    ensures exists n :: 0 < n <= |es| && Execute(s, es[..n]).current == p
  {
    ReachableInv(s);
    WaitBound(s, p);
    StartsInTime(s, es, p);
  }

  /** A run of forks queues the free slots in order. */
  lemma {:induction false} ForksQueue(s: State, es: seq<Event>)
    requires Inv(s) && s.current != s.idle && |es| <= |s.free| && forall e :: e in es ==> e.Forking?
    ensures var r := Execute(s, es);
      && r.ready == s.ready + s.free[..|es|] && r.current == s.current && r.remaining == s.remaining
    decreases |es|
  {
    if es != [] {
      ForkQueues(s, es[0]);
      ForksQueue(Next(s, es[0]), es[1..]);
      MoveOne(s.ready, s.free, |es|);
    }
  }

  lemma MoveOne(q: seq<Slot>, free: seq<Slot>, n: nat)
    requires 0 < n <= |free|
    ensures (q + [free[0]]) + free[1..][..n - 1] == q + free[..n]
  {
  }

  lemma ForkQueues(s: State, e: Event)
    requires Inv(s) && s.current != s.idle && s.free != [] && e.Forking?
    ensures var r := Next(s, e);
      && Inv(r) && r.current == s.current && r.idle == s.idle && r.remaining == s.remaining
      && r.free == s.free[1..] && r.ready == s.ready + [s.free[0]]
  {
    ForkHasRoom(s);
    NextKeepsInv(s, e);
  }

  /** The bound is reached: after eight forks of the first process the last child waits that long. */
  lemma BoundIsReached(b: Params, es: seq<Event>)
    requires b.Valid() && |es| == NR_TASKS - 2 && forall e :: e in es ==> e.Forking?
    ensures var s := Execute(Boot(b), es);
      s.ready != [] && Wait(s, s.ready[|s.ready| - 1]) == DEFAULT_QUANTUM * (NR_TASKS - 2)
  {
    var s := Execute(Boot(b), es);
    BootInv(b);
    ForksQueue(Boot(b), es);
    RunKeepsInv(Boot(b), es);
    AheadOfLast(s.tasks, s.ready);
  }

  lemma {:induction false} AheadOfLast(tasks: Tasks, q: seq<Slot>)
    requires q != [] && Distinct(q) && forall i :: i in q ==> tasks[i].quantum == DEFAULT_QUANTUM
    ensures Ahead(tasks, q, q[|q| - 1]) == DEFAULT_QUANTUM * (|q| - 1)
  {
    if |q| > 1 {
      AheadOfLast(tasks, q[1..]);
    }
  }

  // ----- the period

  /** The part of the state that decides who runs when. */
  datatype Turn = Turn(current: Slot, ready: seq<Slot>, remaining: int)

  function TurnOf(s: State): Turn { Turn(s.current, s.ready, s.remaining) }

  function Advance(tasks: Tasks, t: Turn): Turn {
    if t.remaining > 1 then t.(remaining := t.remaining - 1) else Rotate(tasks, t)
  }

  function Rotate(tasks: Tasks, t: Turn): Turn {
    var q := t.ready + [t.current];
    Turn(q[0], q[1..], tasks[q[0]].quantum)
  }

  function AdvanceBy(tasks: Tasks, t: Turn, n: nat): Turn
    decreases n
  {
    if n == 0 then t else AdvanceBy(tasks, Advance(tasks, t), n - 1)
  }

  /** How many of the next `n` ticks find task `p` running. */
  function Ran(tasks: Tasks, t: Turn, n: nat, p: Slot): nat
    decreases n
  {
    if n == 0 then 0 else (if t.current == p then 1 else 0) + Ran(tasks, Advance(tasks, t), n - 1, p)
  }

  function Total(tasks: Tasks, q: seq<Slot>): int {
    if q == [] then 0 else tasks[q[0]].quantum + Total(tasks, q[1..])
  }

  lemma {:induction false} AdvanceByAdds(tasks: Tasks, t: Turn, m: nat, n: nat, p: Slot)
    ensures AdvanceBy(tasks, t, m + n) == AdvanceBy(tasks, AdvanceBy(tasks, t, m), n)
    ensures Ran(tasks, t, m + n, p) == Ran(tasks, t, m, p) + Ran(tasks, AdvanceBy(tasks, t, m), n, p)
    decreases m
  {
    if m > 0 {
      AdvanceByAdds(tasks, Advance(tasks, t), m - 1, n, p);
    }
  }

  /** The running task keeps the processor for exactly what remains of its quantum. */
  lemma {:induction false} OneTurn(tasks: Tasks, t: Turn, p: Slot)
    requires t.remaining >= 1
    ensures AdvanceBy(tasks, t, t.remaining) == Rotate(tasks, t)
    ensures Ran(tasks, t, t.remaining, p) == if p == t.current then t.remaining else 0
    decreases t.remaining
  {
    if t.remaining > 1 {
      OneTurn(tasks, Advance(tasks, t), p);
    } else {
      assert AdvanceBy(tasks, t, 1) == AdvanceBy(tasks, Advance(tasks, t), 0);
    }
  }

  /** Each task at the front of the round runs for its own quantum and goes to the back. */
  lemma {:induction false} ManyTurns(tasks: Tasks, front: seq<Slot>, back: seq<Slot>, p: Slot)
    requires front != []
    requires Distinct(front)
    requires forall i :: i in front + back ==> tasks[i].quantum >= 1
    ensures Total(tasks, front) >= 1
    ensures var t := Turn(front[0], front[1..] + back, tasks[front[0]].quantum);
            var round := back + front;
      && AdvanceBy(tasks, t, Total(tasks, front)) == Turn(round[0], round[1..], tasks[round[0]].quantum)
      && Ran(tasks, t, Total(tasks, front), p) == if p in front then tasks[p].quantum else 0
    decreases |front|
  {
    var c, front', back' := front[0], front[1..], back + [front[0]];
    var t := Turn(c, front' + back, tasks[c].quantum);
    OneTurn(tasks, t, p);
    FrontToBack(front, back);
    assert t.ready + [c] == front' + back';
    if front' == [] {
      assert Total(tasks, front) == tasks[c].quantum + Total(tasks, []);
    } else {
      assert forall i :: i in front' + back' ==> i in front + back;
      ManyTurns(tasks, front', back', p);
      assert Rotate(tasks, t) == Turn(front'[0], front'[1..] + back', tasks[front'[0]].quantum);
      AdvanceByAdds(tasks, t, tasks[c].quantum, Total(tasks, front'), p);
    }
  }

  lemma FrontToBack(front: seq<Slot>, back: seq<Slot>)
    requires front != []
    ensures front == [front[0]] + front[1..]
    ensures (front[1..] + back) + [front[0]] == front[1..] + (back + [front[0]])
    ensures (back + [front[0]]) + front[1..] == back + front
  {
  }

  predicate Quiet(e: Event) { !e.Forking? && !GivesWay(e) }

  lemma QuietStep(s: State, e: Event)
    requires Core(s) && Quiet(e)
    ensures var r := Next(s, e);
      && TurnOf(r) == (if e.Clock? then Advance(s.tasks, TurnOf(s)) else TurnOf(s))
      && forall i: Slot :: r.tasks[i].quantum == s.tasks[i].quantum
  {
    match e
    case Clock(t1, t2, t3) =>
      TickCases(s, t1, t2, t3);
      if s.current != s.idle {
        YieldRotates(s, t1, t2, t3);
      }
    case _ => LightStep(s, e);
  }

  lemma {:induction false} AdvanceSame(a: Tasks, b: Tasks, t: Turn, n: nat, p: Slot)
    requires forall i: Slot :: a[i].quantum == b[i].quantum
    ensures AdvanceBy(a, t, n) == AdvanceBy(b, t, n) && Ran(a, t, n, p) == Ran(b, t, n, p)
    decreases n
  {
    if n > 0 {
      AdvanceSame(a, b, Advance(a, t), n - 1, p);
    }
  }

  /** How many of the clock ticks of a run find task `p` running. */
  function TicksOf(s: State, es: seq<Event>, p: Slot): nat
    decreases |es|
  {
    if es == [] then 0 else
      (if es[0].Clock? && s.current == p then 1 else 0) + TicksOf(Next(s, es[0]), es[1..], p)
  }

  /** In a run without fork, exit or yield the schedule depends only on the number of ticks. */
  lemma {:induction false} QuietRun(s: State, es: seq<Event>, p: Slot)
    requires Core(s) && forall i :: 0 <= i < |es| ==> Quiet(es[i])
    ensures TurnOf(Execute(s, es)) == AdvanceBy(s.tasks, TurnOf(s), Clocks(es))
    ensures TicksOf(s, es, p) == Ran(s.tasks, TurnOf(s), Clocks(es), p)
    decreases |es|
  {
    if es != [] {
      QuietEvent(s, es[0], Clocks(es[1..]), p);
      QuietRun(Next(s, es[0]), es[1..], p);
    }
  }

  /** One quiet event and `n` more ticks. */
  lemma QuietEvent(s: State, e: Event, n: nat, p: Slot)
    requires Core(s) && Quiet(e)
    ensures var r := Next(s, e); var k := IsClock(e) + n;
      && Core(r) && AdvanceBy(s.tasks, TurnOf(s), k) == AdvanceBy(r.tasks, TurnOf(r), n)
      && Ran(s.tasks, TurnOf(s), k, p)
         == (if e.Clock? && s.current == p then 1 else 0) + Ran(r.tasks, TurnOf(r), n, p)
  {
    QuietStep(s, e);
    NextKeepsCore(s, e);
    QuietHead(s.tasks, Next(s, e).tasks, TurnOf(s), TurnOf(Next(s, e)), e, n, p);
  }

  /** One quiet event in front of `n` more ticks. */
  lemma QuietHead(a: Tasks, b: Tasks, t: Turn, u: Turn, e: Event, n: nat, p: Slot)
    requires forall i: Slot :: a[i].quantum == b[i].quantum
    requires u == if e.Clock? then Advance(a, t) else t
    ensures AdvanceBy(a, t, IsClock(e) + n) == AdvanceBy(b, u, n)
    ensures Ran(a, t, IsClock(e) + n, p) == (if e.Clock? && t.current == p then 1 else 0) + Ran(b, u, n, p)
  {
    AdvanceSame(b, a, u, n, p);
  }

  /** Round-robin period: from a state where the running task has its full quantum, after as
      many ticks as all live quanta together, the same task runs, the queue is in the same
      order, the quantum is full again, and every task ran exactly its own quantum. */
  lemma Period(s: State, es: seq<Event>, p: Slot)
    requires Core(s) && s.remaining == s.tasks[s.current].quantum
    requires forall e :: e in es ==> Quiet(e)
    requires Clocks(es) == Total(s.tasks, [s.current] + s.ready)
    ensures TurnOf(Execute(s, es)) == TurnOf(s)
    ensures TicksOf(s, es, p) == if p == s.current || p in s.ready then s.tasks[p].quantum else 0
  {
    QuietRun(s, es, p);
    FullRound(s, p);
  }

  lemma FullRound(s: State, p: Slot)
    requires Core(s) && s.remaining == s.tasks[s.current].quantum
    ensures var n := Total(s.tasks, [s.current] + s.ready);
      && n >= 1
      && AdvanceBy(s.tasks, TurnOf(s), n) == TurnOf(s)
      && Ran(s.tasks, TurnOf(s), n, p) == if p == s.current || p in s.ready then s.tasks[p].quantum else 0
  {
    var round := [s.current] + s.ready;
    forall i, j | 0 <= i < j < |round| ensures round[i] != round[j] {
      assert round[j] == s.ready[j - 1] && s.ready[j - 1] in s.ready;
    }
    RoundReturns(s.tasks, round, p);
    assert round[1..] == s.ready;
  }

  lemma RoundReturns(tasks: Tasks, round: seq<Slot>, p: Slot)
    requires round != [] && Distinct(round) && forall i :: i in round ==> tasks[i].quantum >= 1
    ensures var n := Total(tasks, round); var t := Turn(round[0], round[1..], tasks[round[0]].quantum);
      n >= 1 && AdvanceBy(tasks, t, n) == t && Ran(tasks, t, n, p) == if p in round then tasks[p].quantum else 0
  {
    assert round + [] == round && [] + round == round && round[1..] + [] == round[1..];
    ManyTurns(tasks, round, [], p);
  }

  // ----- switches to oneself

  /** A task is switched to itself exactly when it yields with an empty queue; a preempting tick
      always finds somebody else. */
  lemma LoneYieldSwitchesToSelf(s: State, t1: Word, t2: Word, t3: Word)
    requires Core(s) && s.current != s.idle
    ensures Yield(s, t1, t2, t3).current == s.current <==> s.ready == []
    ensures s.remaining == 1 && s.ready != [] ==> Tick(s, t1, t2, t3).current != s.current
  {
    YieldRotates(s, t1, t2, t3);
    TickCases(s, t1, t2, t3);
  }

  // ----- idle

  /** While the idle task runs no process is alive, and it starts exactly when the last live
      process exits. */
  lemma IdleOnlyWhenAlone(s: State, e: Event)
    requires Reachable(s)
    ensures s.idle !in s.ready && s.idle !in s.free
    ensures s.current == s.idle ==> forall i: Slot :: !Live(s.free, s.idle, i)
    ensures s.current != s.idle ==> (Next(s, e).current == s.idle <==> e.Exiting? && s.ready == [])
    ensures s.current == s.idle ==> Next(s, e).current == s.idle
  {
    ReachableInv(s);
    NextKeepsCore(s, e);
    if Enabled(s, e) {
      match e
      case Clock(t1, t2, t3) =>
        TickCases(s, t1, t2, t3);
        if s.current != s.idle {
          YieldRotates(s, t1, t2, t3);
        }
      case Yielding(t1, t2, t3) => YieldRotates(s, t1, t2, t3);
      case Exiting(t2, t3) => ExitShape(s, t2, t3);
      case Forking(t1, t2) =>
      case _ => LightStep(s, e);
    }
  }
}
