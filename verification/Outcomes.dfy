/** What each kernel entry leaves behind, written out field by field and in plain numbers. */
module Outcomes {
  import opened Layout
  import opened Frames
  import opened Machine
  import opened Invariant
  import opened Startup
  import opened Processes

  // ----- fork

  /** Forks succeed whenever a block and twenty frames are free; in reachable states a free block is enough. */
  lemma ForkSucceeds(s: State, t1: Word, t2: Word)
    requires Reachable(s)
    ensures Fork(s, t1, t2).1 > 0 <==> s.free != []
    ensures s.free != [] ==> |Allocated(s.phys, 20)| == 20
  {
    ReachableInv(s);
    if s.free != [] {
      ForkHasRoom(s);
    }
  }

  /** The child's block after a successful fork: next identifier, own directory, ready, the parent's
      quantum, and a record in which nothing has happened yet. */
  lemma ForkBlock(s: State, t1: Word, t2: Word)
    requires Core(s) && s.current != s.idle && s.free != [] && |Allocated(s.phys, 20)| == 20
    ensures var r := Next(s, Forking(t1, t2)); var c := s.free[0]; var z := r.tasks[c];
      && z.stats.user == 0 && z.stats.system == 0 && z.stats.blocked == 0 && z.stats.ready == 0
      && z.stats.trans == 0 && z.stats.elapsed == t1 && z.stats.remaining == t2
      && z.pid == s.lastPid + 1 == r.lastPid && z.dir == c && z.state == Ready
      && z.quantum == s.tasks[s.current].quantum && r.start[c] == t1
  {
  }

  /** And what a fork leaves alone. */
  lemma ForkLeaves(s: State, t1: Word, t2: Word)
    requires Core(s) && s.current != s.idle && s.free != [] && |Allocated(s.phys, 20)| == 20
    ensures var r := Next(s, Forking(t1, t2)); var c := s.free[0];
      && r.free == s.free[1..] && r.ready == s.ready + [c] && r.current == s.current && r.idle == s.idle
      && r.remaining == s.remaining && r.cr3 == s.cr3 && r.tss == s.tss && r.msr == s.msr
      && r.tlb == map[] && r.structures == s.structures
      && (forall i: Slot :: i != c ==>
            r.tasks[i] == s.tasks[i] && r.tables[i] == s.tables[i] && r.start[i] == s.start[i])
  {
  }

  /** The child's page table, entry by entry: the parent's frames below page 264, the twenty allocated
      ones up to page 283, nothing above. */
  lemma ForkTable(s: State, t1: Word, t2: Word, p: FrameNo)
    requires Core(s) && s.current != s.idle && s.free != [] && |Allocated(s.phys, 20)| == 20
    ensures var r := Next(s, Forking(t1, t2)); var fs := Allocated(s.phys, 20);
      r.tables[s.free[0]][p] ==
        if p < 264 then Pte(s.tables[s.current][p].frame, true, true, true)
        else if p < 284 then Pte(fs[p - 264], true, true, true) else Pte(0, false, false, false)
  {
    ChildTable(s.tables[s.free[0]], s.tables[s.current], Allocated(s.phys, NUM_PAG_DATA));
  }

  /** The twenty frames are distinct, above the code and were free; they and no others become used. */
  lemma ForkMarks(s: State, t1: Word, t2: Word)
    requires Core(s) && s.current != s.idle && s.free != [] && |Allocated(s.phys, 20)| == 20
    ensures var r := Next(s, Forking(t1, t2)); var fs := Allocated(s.phys, 20);
      && Distinct(fs) && (forall k :: 0 <= k < 20 ==> !s.phys[fs[k]] && fs[k] > 256)
      && (forall f: FrameNo :: r.phys[f] <==> s.phys[f] || f in fs)
  {
    var fs := Allocated(s.phys, NUM_PAG_DATA);
    AllocatedFresh(s.phys, NUM_PAG_DATA);
    forall f: FrameNo ensures Mark(s.phys, fs)[f] <==> s.phys[f] || f in fs {
      MarkAt(s.phys, fs, f);
    }
    FreshAboveKernel(s, fs);
  }

  /** Memory after a fork: the child's frames hold the parent's data pages, every other frame is as it was. */
  lemma ForkFrames(s: State, t1: Word, t2: Word, f: FrameNo)
    requires Core(s) && s.current != s.idle && s.free != [] && |Allocated(s.phys, 20)| == 20
    ensures var r := Next(s, Forking(t1, t2)); var fs := Allocated(s.phys, 20);
      && (forall k :: 0 <= k < 20 && fs[k] == f ==> r.mem[f] == s.mem[s.tables[s.current][264 + k].frame])
      && (f !in fs ==> r.mem[f] == s.mem[f])
  {
    var fs := Allocated(s.phys, NUM_PAG_DATA);
    AllocatedFresh(s.phys, NUM_PAG_DATA);
    CopyPagesAt(s.mem, DataFrames(s.tables[s.current]), fs, f);
  }

  lemma FreshAboveKernel(s: State, fs: seq<FrameNo>)
    requires Core(s) && Fresh(s.phys, fs, NUM_PAG_DATA) && |fs| == NUM_PAG_DATA
    ensures forall k :: 0 <= k < NUM_PAG_DATA ==> !s.phys[fs[k]] && fs[k] > NUM_PAG_KERNEL
  {
    assert Needed(s.free, s.idle, s.tables, NUM_PAG_KERNEL);
  }

  // ----- exit

  /** After an exit each of the twenty data entries of the exited table is empty, and every other entry
      of every table is as before. */
  lemma ExitTable(s: State, t2: Word, t3: Word)
    requires Core(s) && s.current != s.idle
    ensures var r := Next(s, Exiting(t2, t3));
      && (forall p :: 264 <= p < 284 ==> r.tables[s.current][p] == Pte(0, false, false, false))
      && (forall i: Slot, p: FrameNo :: i != s.current || p < 264 || p >= 284 ==> r.tables[i][p] == s.tables[i][p])
  {
    ExitShape(s, t2, t3);
  }

  /** The frames behind these twenty entries have become free, and no others; memory is as before. */
  lemma ExitFrames(s: State, t2: Word, t3: Word)
    requires Core(s) && s.current != s.idle
    ensures var r := Next(s, Exiting(t2, t3));
      && r.mem == s.mem
      && forall f: FrameNo :: r.phys[f] <==>
           s.phys[f] && forall p :: 264 <= p < 284 ==> s.tables[s.current][p].frame != f
  {
    ExitShape(s, t2, t3);
    var fs := DataFrames(s.tables[s.current]);
    forall f: FrameNo
      ensures Release(s.phys, fs)[f] <==> s.phys[f] && forall p :: 264 <= p < 284 ==> s.tables[s.current][p].frame != f
    {
      ReleaseAt(s.phys, fs, f);
      DataFrameMember(s, f);
    }
  }

  lemma DataFrameMember(s: State, f: FrameNo)
    requires Core(s) && s.current != s.idle
    ensures var fs := DataFrames(s.tables[s.current]);
      (f in fs <==> exists p :: 264 <= p < 284 && s.tables[s.current][p].frame == f) && (f in fs ==> f > 256)
  {
    var t := s.tables[s.current];
    var fs := DataFrames(t);
    forall p | 264 <= p < 284 ensures t[p].frame == fs[p - 264] && fs[p - 264] in fs {}
    if f in fs {
      var k :| 0 <= k < 20 && fs[k] == f;
      assert t[264 + k].frame == f;
      assert Live(s.free, s.idle, s.current) && DataFrame(s.tables, s.current, k) == f;
    }
  }

  /** In every reachable state a data page that is present in some table is one of a live process. */
  lemma DataPagesAreOfLive(s: State, i: Slot, p: FrameNo)
    requires Reachable(s) && 264 <= p < 284 && s.tables[i][p].present
    ensures i != s.idle && i !in s.free
  {
    ReachableInv(s);
  }

  // ----- calls that copy to their caller

  /** Which error `sys_get_stats` answers, for every identifier and buffer. */
  lemma StatsErrors(s: State, pid: int, st: Word)
    ensures var reply := GetStats(s, pid, st).1; var accepted := 0x10_0000 <= st && st + 28 < 0x11_d000;
      && (reply == Failed(14) <==> !accepted)
      && (reply == Failed(22) <==> accepted && pid < 0)
      && (reply == Failed(3) <==> accepted && pid >= 0 && forall i: Slot :: s.tasks[i].pid != pid)
      && (reply.Found? <==> accepted && pid >= 0 && (exists i: Slot :: s.tasks[i].pid == pid) && st + 28 <= 0x11_c000)
  {
    AcceptedBuffers(st, STATS_SIZE);
  }

  /** A call that fails changes nothing. */
  lemma StatsFailureChangesNothing(s: State, pid: int, st: Word)
    requires !GetStats(s, pid, st).1.Found?
    ensures GetStats(s, pid, st).0 == s && Next(s, Statting(pid, st)) == s
  {
  }

  /** A call that succeeds stores the running task's remaining quantum in the first block with the
      identifier, answers with that record, and changes no block otherwise. */
  lemma StatsSuccess(s: State, pid: int, st: Word, i: Slot)
    requires s.current != s.idle && GetStats(s, pid, st).1.Found?
    requires s.tasks[i].pid == pid && forall j: Slot :: j < i ==> s.tasks[j].pid != pid
    ensures var r := Next(s, Statting(pid, st)); var rec := GetStats(s, pid, st).1.value; var z := s.tasks[i].stats;
      && r.tasks[i].stats == rec && rec.remaining == s.remaining % 0x1_0000_0000
      && rec.user == z.user && rec.system == z.system && rec.blocked == z.blocked && rec.ready == z.ready
      && rec.elapsed == z.elapsed && rec.trans == z.trans
      && (forall j: Slot :: j != i ==> r.tasks[j] == s.tasks[j])
      && r.tables == s.tables && r.phys == s.phys && r.free == s.free && r.ready == s.ready
      && r.current == s.current && r.remaining == s.remaining && r.lastPid == s.lastPid
  {
    GetStatsShape(s, pid, st);
    FirstHolder(s, pid, i);
    var rec := s.tasks[i].stats.(remaining := s.remaining % WORD);
    CopyOutShape(s.(tasks := s.tasks[i := s.tasks[i].(stats := rec)]), st, RecordBytes(rec));
  }

  lemma FirstHolder(s: State, pid: int, i: Slot)
    requires s.tasks[i].pid == pid && forall j: Slot :: j < i ==> s.tasks[j].pid != pid
    ensures FindPid(s.tasks, pid, 0) == i
  {
  }

  /** What `sys_pollEvent` answers, and that it changes nothing when it fails. */
  lemma PollErrors(s: State, addr: Word, keys: Keys)
    ensures var (r, reply) := PollKeys(s, addr, keys); var accepted := 0x10_0000 <= addr && addr + 128 < 0x11_d000;
      && (reply == Failed(14) <==> !accepted)
      && (reply == Found(keys) <==> accepted && addr + 128 <= 0x11_c000)
      && (!reply.Found? ==> r == s && Next(s, Polling(addr, keys)) == s)
  {
    AcceptedBuffers(addr, KEYS_SIZE);
  }

  function LowFirst(a: int, b: int, c: int, d: int): int { a + 0x100 * b + 0x1_0000 * c + 0x100_0000 * d }

  /** The fields of a record in memory: seven words in the order of `struct stats`, low byte first. */
  lemma RecordLayout(st: Stats)
    ensures var b := RecordBytes(st);
      && LowFirst(b[0], b[1], b[2], b[3]) == st.user
      && LowFirst(b[4], b[5], b[6], b[7]) == st.system
      && LowFirst(b[8], b[9], b[10], b[11]) == st.blocked
      && LowFirst(b[12], b[13], b[14], b[15]) == st.ready
      && LowFirst(b[16], b[17], b[18], b[19]) == st.elapsed
      && LowFirst(b[20], b[21], b[22], b[23]) == st.trans
      && LowFirst(b[24], b[25], b[26], b[27]) == st.remaining
  {
    WordLayout(st.user);
    WordLayout(st.system);
    WordLayout(st.blocked);
    WordLayout(st.ready);
    WordLayout(st.elapsed);
    WordLayout(st.trans);
    WordLayout(st.remaining);
  }

  lemma WordLayout(w: Word)
    ensures var b := WordBytes(w); LowFirst(b[0], b[1], b[2], b[3]) == w
  {
    WordRoundTrip(w);
  }

  // ----- the processor's own steps

  /** Which stores of the running process happen. */
  lemma StoreHappens(s: State, page: FrameNo, off: int, b: Byte)
    requires Core(s)
    ensures var e := s.tables[s.current][page];
      Enabled(s, Storing(page, off, b)) <==>
      s.current != s.idle && 0 <= off < 4096 && e.present && e.user && e.rw && e.frame !in s.structures
  {
  }

  /** What a store does: one byte of the frame behind the page changes, and the entry is cached. */
  lemma StoreOutcome(s: State, page: FrameNo, off: int, b: Byte)
    requires Core(s) && Enabled(s, Storing(page, off, b))
    ensures var r := Next(s, Storing(page, off, b)); var f := s.tables[s.current][page].frame;
      && r.mem[f][off] == b && (forall o :: 0 <= o < 4096 && o != off ==> r.mem[f][o] == s.mem[f][o])
      && (forall g: FrameNo :: g != f ==> r.mem[g] == s.mem[g])
      && page in r.tlb && r.tlb[page] == s.tables[s.current][page]
      && (forall p: FrameNo :: p != page ==> (p in r.tlb <==> p in s.tlb) && (p in s.tlb ==> r.tlb[p] == s.tlb[p]))
      && r == s.(mem := r.mem, tlb := r.tlb)
  {
  }

  /** Caching adds the entry of a present page, dropping removes the given ones; nothing else changes. */
  lemma TlbSteps(s: State, page: FrameNo, pages: set<FrameNo>)
    ensures var r := Next(s, Caching(page)); var e := s.tables[s.cr3][page];
      && r == s.(tlb := r.tlb)
      && (e.present ==> page in r.tlb && r.tlb[page] == e)
      && (forall p: FrameNo :: p != page || !e.present ==>
            (p in r.tlb <==> p in s.tlb) && (p in s.tlb ==> r.tlb[p] == s.tlb[p]))
    ensures var r := Next(s, Evicting(pages));
      && r == s.(tlb := r.tlb)
      && (forall p: FrameNo :: p in r.tlb <==> p in s.tlb && p !in pages)
      && (forall p: FrameNo :: p in r.tlb ==> r.tlb[p] == s.tlb[p])
  {
  }

  // ----- queues

  /** `update_process_state_rr` to the ready queue: a running block goes to its end, a queued one from
      wherever it stands; it is charged system time and ready. */
  lemma RequeueMoves(s: State, t: Slot, now: Word, k: nat)
    requires s.tasks[t].state == Run || (Distinct(s.ready) && k < |s.ready| && s.ready[k] == t)
    ensures var r := Requeue(s, t, now); var a, z := s.tasks[t], r.tasks[t];
      && r.ready == (if a.state == Run then s.ready else s.ready[..k] + s.ready[k + 1..]) + [t]
      && z.state == Ready && z.stats.elapsed == now
      && (z.stats.system - a.stats.system - (now - a.stats.elapsed)) % 0x1_0000_0000 == 0
      && z == a.(state := Ready, stats := a.stats.(system := z.stats.system, elapsed := now))
      && r == s.(ready := r.ready, tasks := s.tasks[t := z])
  {
    if s.tasks[t].state != Run {
      WithoutOne(s.ready, k);
    }
    AccrueAdds(s.tasks[t].stats.system, s.tasks[t].stats.elapsed, now);
  }

  /** Without a destination the block is in no queue, running and not charged. */
  lemma UnqueueRemoves(s: State, t: Slot, k: nat)
    requires s.tasks[t].state == Run || (Distinct(s.ready) && k < |s.ready| && s.ready[k] == t)
    ensures var r := Unqueue(s, t);
      && r.ready == (if s.tasks[t].state == Run then s.ready else s.ready[..k] + s.ready[k + 1..])
      && r == s.(ready := r.ready, tasks := s.tasks[t := s.tasks[t].(state := Run)])
  {
    if s.tasks[t].state != Run {
      WithoutOne(s.ready, k);
    }
  }

  lemma {:induction false} WithoutOne(q: seq<Slot>, k: nat)
    requires Distinct(q) && k < |q|
    ensures Without(q, q[k]) == q[..k] + q[k + 1..]
  {
    if k == 0 {
      WithoutNone(q[1..], q[0]);
    } else {
      WithoutOne(q[1..], k - 1);
      assert q[..k] + q[k + 1..] == [q[0]] + (q[1..][..k - 1] + q[1..][k..]);
    }
  }

  lemma {:induction false} WithoutNone(q: seq<Slot>, t: Slot)
    requires t !in q
    ensures Without(q, t) == q
  {
    if q != [] {
      WithoutNone(q[1..], t);
    }
  }

  /** A charge adds the elapsed time, modulo 2^32. */
  lemma AccrueAdds(v: Word, elapsed: Word, now: Word)
    ensures (Accrue(v, elapsed, now) - v - (now - elapsed)) % 0x1_0000_0000 == 0
  {
    var x := v + now - elapsed;
    assert x == x / WORD * WORD + x % WORD;
    SameResidue(x % WORD - x, 0, x / WORD);
  }

  // ----- boot

  /** The state in which the kernel first enters user mode, in numbers. */
  lemma BootValues(b: Params)
    ensures var s := Boot(b);
      && s.current == 1 && s.idle == 0 && s.ready == [] && s.free == [2, 3, 4, 5, 6, 7, 8, 9]
      && s.remaining == 10 && s.lastPid == 1000 && s.cr3 == 1 && s.tss == 1 && s.msr == 1 && s.tlb == map[]
      && s.mem == b.mem && s.structures == b.structures
      && (forall i: Slot :: s.tasks[i].pid == if i == 0 then 0 else if i == 1 then 1 else -1)
      && (forall i: Slot :: i < 2 ==> s.tasks[i].dir == i && s.tasks[i].quantum == 10 && s.tasks[i].state == Run)
      && (forall i: Slot :: i >= 2 ==> s.tasks[i] == Task(-1, 0, Run, 0, Stats(0, 0, 0, 0, 0, 0, 0)))
  {
  }

  /** The records of the idle task and the first process start with nothing counted. */
  lemma BootRecords(b: Params)
    ensures var x, y := Boot(b).tasks[0].stats, Boot(b).tasks[1].stats;
      && x.user == 0 && x.system == 0 && x.blocked == 0 && x.ready == 0 && x.trans == 0
      && x.elapsed == b.i1 && x.remaining == b.i2
      && y.user == 0 && y.system == 0 && y.blocked == 0 && y.ready == 0 && y.trans == 0
      && y.elapsed == b.u1 && y.remaining == b.u2
  {
  }

  /** Every page table at boot, entry by entry. */
  lemma BootEntries(b: Params, i: Slot, p: FrameNo)
    requires b.Valid()
    ensures var mapped := 1 <= p < 256; var guards := p == b.guard || p == b.guard + 11;
      Boot(b).tables[i][p] ==
      if mapped then Pte(p, false, true, !guards)
      else if i == 1 && 256 <= p < 264 then Pte(256 + 2 * (p - 256), true, false, true)
      else if i == 1 && 264 <= p < 284 then Pte(256 + 2 * (p - 256), true, true, true)
      else Pte(0, false, false, false)
  {
    BootAllocation(KernelPhys(), BOOT_FRAMES);
  }
}
