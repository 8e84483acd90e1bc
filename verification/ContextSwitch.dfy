/** Stack switching on a small x86 model: the registers the code uses and word memory. Each task
    owns the page that holds its process block and its kernel stack. */
module ContextSwitch {
  const PAGE := 4096
  /** Offset of `register_esp` in the process block, and the size of the block. */
  const ESP_SLOT := 16
  const BLOCK_SIZE := 56

  /** Code addresses; only that they are what is pushed and popped matters. */
  const AFTER_INNER := 0x11000
  const AFTER_SWITCH := 0x11100
  const RET_FROM_FORK := 0x11200
  const CPU_IDLE := 0x11300

  const USER_CS := 0x23
  const USER_DS := 0x2B

  type Mem = map<int, int>

  function Rd(m: Mem, a: int): int { if a in m then m[a] else 0 }

  /** Word `k` of a page. */
  function WordAt(m: Mem, page: int, k: int): int { Rd(m, page + 4 * k) }

  function PageOf(a: int): int { a - a % PAGE }

  datatype Cpu = Cpu(eax: int, ebx: int, esi: int, edi: int, ebp: int, esp: int, eip: int, mem: Mem)

  // ----- the code, instruction by instruction

  class X86 {
    var eax: int
    var ebx: int
    var esi: int
    var edi: int
    var ebp: int
    var esp: int
    var eip: int
    var mem: Mem

    function State(): Cpu
      reads this
    {
      Cpu(eax, ebx, esi, edi, ebp, esp, eip, mem)
    }

    constructor (c: Cpu)
      ensures State() == c
    {
      eax, ebx, esi, edi, ebp, esp, eip, mem := c.eax, c.ebx, c.esi, c.edi, c.ebp, c.esp, c.eip, c.mem;
    }

    method Push(v: int)
      modifies `esp, `mem
      ensures esp == old(esp) - 4 && mem == old(mem)[esp := v]
    {
      esp := esp - 4;
      mem := mem[esp := v];
    }

    method Pop() returns (v: int)
      modifies `esp
      ensures v == Rd(mem, old(esp)) && esp == old(esp) + 4
    {
      v := Rd(mem, esp);
      esp := esp + 4;
    }

    /** `switch_stack(save_sp, new_sp)`: its own return address is abandoned on the old stack. */
    method SwitchStack()
      requires Rd(mem, esp + 4) != esp + 8
      modifies this
      ensures var m := old(mem)[Rd(old(mem), old(esp) + 4) := old(ebp)]; var v := Rd(old(mem), old(esp) + 8);
        mem == m && esp == v + 8 && ebp == Rd(m, v) && eip == Rd(m, v + 4)
    {
      eax := Rd(mem, esp + 4);
      mem := mem[eax := ebp];
      esp := Rd(mem, esp + 8);
      ebp := Pop();
      eip := Pop();
    }

    /** The prologue of a C function: frame pointer, then whatever the compiler keeps below it.
        The registers it must preserve are left to it as well. */
    method EnterFrame(locals: seq<int>, b: int, si: int, di: int, ghost page: int)
      requires page + BLOCK_SIZE <= esp - 4 - 4 * |locals|
      modifies this
      ensures ebp == old(esp) - 4 && esp == ebp - 4 * |locals| && Rd(mem, ebp) == old(ebp)
      ensures StackOnly(old(mem), mem, page, old(esp))
    {
      Push(ebp);
      ebp := esp;
      for k := 0 to |locals|
        invariant ebp == old(esp) - 4 && esp == ebp - 4 * k
        invariant Rd(mem, ebp) == old(ebp) && StackOnly(old(mem), mem, page, old(esp))
      {
        Push(locals[k]);
      }
      ebx, esi, edi := b, si, di;
    }

    /** The call of `switch_stack` with the address of the running block's saved stack pointer,
        which `current()` finds by masking the stack pointer. */
    method CallSwitchStack(v: int, ghost page: int)
      requires page % PAGE == 0 && page + BLOCK_SIZE <= esp - 12 && esp <= ebp < page + PAGE
      modifies this
      ensures esp == v + 8 && ebp == Rd(mem, v) && eip == Rd(mem, v + 4)
      ensures Rd(mem, page + ESP_SLOT) == old(ebp)
      ensures SameExcept(old(mem), mem, page, old(esp))
    {
      SamePage(page, esp - 4);
      Push(v);
      Push(PageOf(esp) + ESP_SLOT);
      Push(AFTER_SWITCH);
      SwitchStack();
    }

    /** `inner_task_switch(new)`, entered with `new` above its return address. The argument
        `new->task.register_esp` is read before `switch_stack` stores the old stack pointer. */
    method InnerTaskSwitch(locals: seq<int>, b: int, si: int, di: int, ghost page: int)
      requires page % PAGE == 0 && page + BLOCK_SIZE <= esp - 16 - 4 * |locals| && esp < page + PAGE
      requires Rd(mem, esp + 4) % PAGE == 0
      modifies this
      ensures var v := Rd(old(mem), Rd(old(mem), old(esp) + 4) + ESP_SLOT);
        esp == v + 8 && ebp == Rd(mem, v) && eip == Rd(mem, v + 4)
      ensures Rd(mem, page + ESP_SLOT) == old(esp) - 4 && Rd(mem, old(esp) - 4) == old(ebp)
      ensures SameExcept(old(mem), mem, page, old(esp))
    {
      EnterFrame(locals, b, si, di, page);
      var next := Rd(mem, ebp + 8);
      SlotIsNoStack(old(mem), mem, page, old(esp), next);
      CallSwitchStack(Rd(mem, next + ESP_SLOT), page);
    }

    /** `task_switch(new)` up to and including its call. */
    method EnterTaskSwitch(ghost page: int)
      requires page + BLOCK_SIZE <= esp - 24
      modifies this
      ensures CallFrame(mem, old(State())) && esp == old(esp) - 24
      ensures Rd(mem, esp + 4) == Rd(old(mem), old(esp) + 4)
      ensures StackOnly(old(mem), mem, page, old(esp))
    {
      Push(ebp);
      ebp := esp;
      Push(esi);
      Push(edi);
      Push(ebx);
      Push(Rd(mem, ebp + 8));
      Push(AFTER_INNER);
    }

    /** `task_switch(new)`, from its entry to the instruction at which the switched-to task goes
        on. */
    method TaskSwitch(locals: seq<int>, b: int, si: int, di: int, ghost page: int)
      requires page % PAGE == 0 && page + BLOCK_SIZE <= esp - 40 - 4 * |locals| && esp + 4 < page + PAGE
      requires Rd(mem, esp + 4) % PAGE == 0
      modifies this
      ensures Switched(old(State()), State(), page, Rd(old(mem), old(esp) + 4))
    {
      EnterTaskSwitch(page);
      SlotIsNoStack(old(mem), mem, page, old(esp), Rd(mem, esp + 4));
      InnerTaskSwitch(locals, b, si, di, page);
    }

    /** `task_switch` after its call has come back. */
    method LeaveTaskSwitch()
      modifies this
      ensures State() == Left(old(State()))
    {
      esp := esp + 4;
      ebx := Pop();
      edi := Pop();
      esi := Pop();
      ebp := Pop();
      eip := Pop();
    }

    // ----- fork

    /** `copy_data` of a whole process page, in words. */
    method CopyPage(from: int, to: int)
      requires to + PAGE <= from || from + PAGE <= to
      modifies `mem
      ensures forall k :: 0 <= k < PAGE / 4 ==> WordAt(mem, to, k) == WordAt(old(mem), from, k)
      ensures forall a :: !(to <= a < to + PAGE) ==> Rd(mem, a) == Rd(old(mem), a)
    {
      for k := 0 to PAGE / 4
        invariant forall j :: 0 <= j < k ==> WordAt(mem, to, j) == WordAt(old(mem), from, j)
        invariant forall a :: !(to <= a < to + PAGE) ==> Rd(mem, a) == Rd(old(mem), a)
      {
        mem := mem[to + 4 * k := Rd(mem, from + 4 * k)];
      }
    }

    /** The part of `sys_fork` that prepares the child's stack for its first switch, run by the
        parent in its frame at `ebp`. */
    method ForgeStack(parent: int, child: int)
      requires child + BLOCK_SIZE <= child + (ebp - parent) - 4
      modifies `mem
      ensures var f := child + (ebp - parent);
        mem == old(mem)[child + ESP_SLOT := f - 4][f := RET_FROM_FORK][f - 4 := Rd(old(mem), f)]
    {
      var registerEbp := ebp - parent + child;
      mem := mem[child + ESP_SLOT := registerEbp + 4];
      var tempEbp := Rd(mem, registerEbp);
      mem := mem[child + ESP_SLOT := Rd(mem, child + ESP_SLOT) - 4];
      mem := mem[Rd(mem, child + ESP_SLOT) := RET_FROM_FORK];
      mem := mem[child + ESP_SLOT := Rd(mem, child + ESP_SLOT) - 4];
      mem := mem[Rd(mem, child + ESP_SLOT) := tempEbp];
    }

    method ForkStack(parent: int, child: int)
      requires (child + PAGE <= parent || parent + PAGE <= child) && (ebp - parent) % 4 == 0
      requires parent + BLOCK_SIZE <= ebp - 4 && ebp < parent + PAGE
      modifies `mem
      ensures ForkedStack(old(mem), mem, parent, child, ebp)
      ensures forall a :: !(child <= a < child + PAGE) ==> Rd(mem, a) == Rd(old(mem), a)
    {
      CopyPage(parent, child);
      CopiedThenForged(old(mem), mem, parent, child, (ebp - parent) / 4);
      ForgeStack(parent, child);
    }

    /** The stack that `init_idle` prepares. */
    method ForgeIdle(page: int)
      modifies `mem
      ensures Held(mem, page, Forged(page + PAGE - 8, 0, CPU_IDLE, mem))
      ensures forall a :: !(page <= a < page + PAGE) ==> Rd(mem, a) == Rd(old(mem), a)
    {
      mem := mem[page + PAGE - 4 := CPU_IDLE];
      mem := mem[page + PAGE - 8 := 0];
      mem := mem[page + ESP_SLOT := page + PAGE - 8];
    }

    /** `ret_from_fork`. */
    method RetFromFork()
      modifies this
      ensures State() == FromFork(old(State()))
    {
      Push(ebp);
      ebp := esp;
      eax := 0;
      ebp := Pop();
      eip := Pop();
    }

    /** The epilogue of `sys_fork` in the parent. */
    method ReturnPid(pid: int)
      modifies this
      ensures State() == ParentReturns(old(State()), pid)
    {
      eax := pid;
      esp := ebp;
      ebp := Pop();
      eip := Pop();
    }

    /** The entry of `system_call_handler` with the kernel stack just loaded: what an interrupt would
        have pushed, then `SAVE_ALL`. The user has left its stack pointer in ebp and the address to
        return to above it. */
    method SystemCallEntry(x: Others)
      modifies `esp, `mem
      ensures esp == old(esp) - 64
      ensures SavedFrame(mem, esp, old(State()), x, Rd(mem, esp + 0x2C))
      ensures !(old(esp) - 16 <= ebp + 4 < old(esp)) ==> Rd(mem, esp + 0x2C) == Rd(old(mem), ebp + 4)
      ensures forall a :: !(esp <= a < old(esp)) ==> Rd(mem, a) == Rd(old(mem), a)
    {
      PushFour(USER_DS, ebp, x.eflags, USER_CS);
      PushFour(Rd(mem, ebp + 4), x.gs, x.fs, x.es);
      PushFour(x.ds, eax, ebp, edi);
      PushFour(esi, x.edx, x.ecx, ebx);
    }

    /** Four pushes in a row. */
    method PushFour(a: int, b: int, c: int, d: int)
      modifies `esp, `mem
      ensures esp == old(esp) - 16
      ensures Rd(mem, esp + 12) == a && Rd(mem, esp + 8) == b && Rd(mem, esp + 4) == c && Rd(mem, esp) == d
      ensures forall p :: !(esp <= p < old(esp)) ==> Rd(mem, p) == Rd(old(mem), p)
    {
      Push(a);
      Push(b);
      Push(c);
      Push(d);
    }

    /** `sysenter_fin`: the result goes into the saved frame, the frame is popped, and `sysexit`
        takes the user's instruction and stack pointers from what is left. */
    method SysenterFin() returns (u: UserRegs)
      modifies `esp, `mem
      ensures u == UserView(old(mem), old(esp), old(eax))
    {
      mem := mem[esp + 0x18 := eax];
      var b := Pop();
      var _ := Pop();
      var _ := Pop();
      var si := Pop();
      var di := Pop();
      var bp := Pop();
      var a := Pop();
      var ds := Pop();
      var es := Pop();
      var fs := Pop();
      var gs := Pop();
      u := UserRegs(a, b, si, di, bp, ds, es, fs, gs, Rd(mem, esp), Rd(mem, esp + 12));
    }
  }

  /** The child's page after `sys_fork` of the parent whose frame is at `ebp`: above the frame
      pointer it equals the parent's, and below it wait the words for the first switch. */
  ghost predicate ForkedStack(m: Mem, n: Mem, parent: int, child: int, ebp: int) {
    var f := child + (ebp - parent);
    && Rd(n, child + ESP_SLOT) == f - 4 && Rd(n, f - 4) == Rd(m, ebp) && Rd(n, f) == RET_FROM_FORK
    && forall k :: ebp - parent < 4 * k < PAGE ==> WordAt(n, child, k) == WordAt(m, parent, k)
  }

  function FromFork(d: Cpu): Cpu {
    d.(eax := 0, esp := d.esp + 4, eip := Rd(d.mem, d.esp), mem := d.mem[d.esp - 4 := d.ebp])
  }

  function ParentReturns(c: Cpu, pid: int): Cpu {
    c.(eax := pid, esp := c.ebp + 8, ebp := Rd(c.mem, c.ebp), eip := Rd(c.mem, c.ebp + 4))
  }

  lemma CopiedThenForged(m: Mem, c: Mem, parent: int, child: int, j: int)
    requires BLOCK_SIZE <= 4 * j - 4 && 4 * j < PAGE
    requires forall k :: 0 <= k < PAGE / 4 ==> WordAt(c, child, k) == WordAt(m, parent, k)
    ensures var f := child + 4 * j;
      ForkedStack(m, c[child + ESP_SLOT := f - 4][f := RET_FROM_FORK][f - 4 := Rd(c, f)], parent, child, parent + 4 * j)
  {
    var f := child + 4 * j;
    var n := c[child + ESP_SLOT := f - 4][f := RET_FROM_FORK][f - 4 := Rd(c, f)];
    assert Rd(c, f) == WordAt(c, child, j) == WordAt(m, parent, j);
    forall k | 4 * j < 4 * k < PAGE ensures WordAt(n, child, k) == WordAt(m, parent, k) {
      assert WordAt(n, child, k) == WordAt(c, child, k);
    }
  }

  /** The registers with which a system call comes back to user mode. */
  datatype UserRegs = UserRegs(eax: int, ebx: int, esi: int, edi: int, ebp: int,
                               ds: int, es: int, fs: int, gs: int, eip: int, esp: int)

  function UserView(m: Mem, esp: int, eax: int): UserRegs {
    UserRegs(eax, Rd(m, esp), Rd(m, esp + 12), Rd(m, esp + 16), Rd(m, esp + 20), Rd(m, esp + 28),
             Rd(m, esp + 32), Rd(m, esp + 36), Rd(m, esp + 40), Rd(m, esp + 44), Rd(m, esp + 56))
  }

  /** The registers at a system call that are not part of `Cpu`. */
  datatype Others = Others(ecx: int, edx: int, ds: int, es: int, fs: int, gs: int, eflags: int)

  /** The sixteen words that the entry of a system call saves at `base`, for the registers `c` and `x` and
      the user's return address. */
  ghost predicate SavedFrame(m: Mem, base: int, c: Cpu, x: Others, ret: int) {
    && Rd(m, base) == c.ebx && Rd(m, base + 0x04) == x.ecx && Rd(m, base + 0x08) == x.edx
    && Rd(m, base + 0x0C) == c.esi && Rd(m, base + 0x10) == c.edi && Rd(m, base + 0x14) == c.ebp
    && Rd(m, base + 0x18) == c.eax
    && Rd(m, base + 0x1C) == x.ds && Rd(m, base + 0x20) == x.es && Rd(m, base + 0x24) == x.fs
    && Rd(m, base + 0x28) == x.gs
    && Rd(m, base + 0x2C) == ret && Rd(m, base + 0x30) == 0x23 && Rd(m, base + 0x34) == x.eflags
    && Rd(m, base + 0x38) == c.ebp && Rd(m, base + 0x3C) == 0x2B
  }

  /** User mode goes on after a system call: at the return address, with the stack pointer that the caller
      left in ebp, the registers of the caller and the result in eax. */
  predicate ComesBack(u: UserRegs, c: Cpu, x: Others, ret: int, result: int) {
    && u.eip == ret && u.esp == c.ebp && u.eax == result
    && u.ebx == c.ebx && u.esi == c.esi && u.edi == c.edi && u.ebp == c.ebp
    && u.ds == x.ds && u.es == x.es && u.fs == x.fs && u.gs == x.gs
  }

  /** The round trip of a system call: as long as the saved frame is kept, leaving the kernel from it takes
      the caller back with the call's result. */
  lemma SystemCallReturns(m: Mem, n: Mem, base: int, c: Cpu, x: Others, ret: int, result: int)
    requires SavedFrame(m, base, c, x, ret) && forall a :: base <= a < base + 64 ==> Rd(n, a) == Rd(m, a)
    ensures ComesBack(UserView(n, base, result), c, x, ret, result)
  {
  }

  /** The saved frame lies above the frame of the system call's function: its return address and the
      frame pointer it pushed are between them. So parent and child of a fork both come back to where the
      parent called, the parent with the child's identifier, the child with 0. */
  lemma ForkComesBackTwice(m: Mem, n: Mem, parent: int, child: int, p: Cpu, d: Cpu, pid: int,
                           c: Cpu, x: Others, ret: int)
    requires (p.ebp - parent) % 4 == 0
    requires parent + BLOCK_SIZE <= p.ebp - 4 && p.ebp + 68 <= parent + PAGE
    requires ForkedStack(m, n, parent, child, p.ebp)
    requires forall a :: p.ebp <= a < parent + PAGE ==> Rd(p.mem, a) == Rd(m, a)
    requires forall a :: child + BLOCK_SIZE <= a < child + PAGE ==> Rd(d.mem, a) == Rd(n, a)
    requires var v := Rd(n, child + ESP_SLOT); d.esp == v + 8 && d.ebp == Rd(d.mem, v) && d.eip == Rd(d.mem, v + 4)
    requires SavedFrame(p.mem, p.ebp + 8, c, x, ret)
    ensures var y := ParentReturns(p, pid); ComesBack(UserView(y.mem, y.esp, y.eax), c, x, ret, pid)
    ensures var y := FromFork(d); ComesBack(UserView(y.mem, y.esp, y.eax), c, x, ret, 0)
  {
    ForkReturnsTwice(m, n, parent, child, p, d, pid);
    SystemCallReturns(p.mem, p.mem, p.ebp + 8, c, x, ret, pid);
  }

  /** Fork returns twice: wherever the frame of `sys_fork` lies in the parent's stack page, the
      first switch to the child arrives in `ret_from_fork`, and from there the child is where the
      parent's own return takes the parent, at the same offset of its own page with the same frame
      pointer and the same words above, and enters user mode with the parent's registers except
      that eax is 0. The parent's frame and the child's page are as `sys_fork` left them. */
  lemma ForkReturnsTwice(m: Mem, n: Mem, parent: int, child: int, p: Cpu, d: Cpu, pid: int)
    requires (p.ebp - parent) % 4 == 0
    requires parent + BLOCK_SIZE <= p.ebp - 4 && p.ebp + 68 <= parent + PAGE
    requires ForkedStack(m, n, parent, child, p.ebp)
    requires forall a :: p.ebp <= a < parent + PAGE ==> Rd(p.mem, a) == Rd(m, a)
    requires forall a :: child + BLOCK_SIZE <= a < child + PAGE ==> Rd(d.mem, a) == Rd(n, a)
    requires var v := Rd(n, child + ESP_SLOT); d.esp == v + 8 && d.ebp == Rd(d.mem, v) && d.eip == Rd(d.mem, v + 4)
    ensures d.eip == RET_FROM_FORK
    ensures var x, y := FromFork(d), ParentReturns(p, pid);
      && x.eip == y.eip && x.ebp == y.ebp && x.esp - child == y.esp - parent && x.eax == 0 && y.eax == pid
      && (forall k :: y.esp - parent <= 4 * k < PAGE ==> WordAt(x.mem, child, k) == WordAt(y.mem, parent, k))
      && UserView(x.mem, x.esp, x.eax) == UserView(y.mem, y.esp, y.eax).(eax := 0)
  {
    var x, y := FromFork(d), ParentReturns(p, pid);
    forall k | p.ebp - parent < 4 * k < PAGE
      ensures WordAt(d.mem, child, k) == WordAt(p.mem, parent, k)
    {
      assert WordAt(n, child, k) == WordAt(m, parent, k);
    }
    var j := (p.ebp - parent) / 4;
    assert WordAt(d.mem, child, j + 1) == WordAt(p.mem, parent, j + 1);
    SameUserView(x.mem, y.mem, child, parent, j + 2, x.eax, y.eax);
  }

  lemma SameUserView(m: Mem, n: Mem, page: int, other: int, j: int, a: int, b: int)
    requires forall k :: j <= k <= j + 14 ==> WordAt(m, page, k) == WordAt(n, other, k)
    ensures UserView(m, page + 4 * j, a) == UserView(n, other + 4 * j, b).(eax := a)
  {
    assert WordAt(m, page, j) == WordAt(n, other, j);
    assert WordAt(m, page, j + 3) == WordAt(n, other, j + 3) && WordAt(m, page, j + 4) == WordAt(n, other, j + 4);
    assert WordAt(m, page, j + 5) == WordAt(n, other, j + 5) && WordAt(m, page, j + 7) == WordAt(n, other, j + 7);
    assert WordAt(m, page, j + 8) == WordAt(n, other, j + 8) && WordAt(m, page, j + 9) == WordAt(n, other, j + 9);
    assert WordAt(m, page, j + 10) == WordAt(n, other, j + 10) && WordAt(m, page, j + 11) == WordAt(n, other, j + 11);
    assert WordAt(m, page, j + 14) == WordAt(n, other, j + 14);
  }

  /** The frame that a call of `task_switch` at state `c` leaves on its stack; the saved stack
      pointer is the address of its last word. */
  ghost predicate CallFrame(m: Mem, c: Cpu) {
    && Rd(m, c.esp) == Rd(c.mem, c.esp)
    && Rd(m, c.esp - 4) == c.ebp && Rd(m, c.esp - 8) == c.esi && Rd(m, c.esp - 12) == c.edi
    && Rd(m, c.esp - 16) == c.ebx && Rd(m, c.esp - 24) == AFTER_INNER
  }

  /** From the entry of `task_switch` at `c`, called by the task of `page` for the block `next`,
      to the state `d` in which `next` goes on. */
  ghost predicate Switched(c: Cpu, d: Cpu, page: int, next: int) {
    var v := Rd(c.mem, next + ESP_SLOT);
    && d.esp == v + 8 && d.ebp == Rd(d.mem, v) && d.eip == Rd(d.mem, v + 4)
    && Rd(d.mem, page + ESP_SLOT) == c.esp - 28
    && CallFrame(d.mem, c)
    && SameExcept(c.mem, d.mem, page, c.esp)
  }

  /** The second half of `task_switch`. */
  function Left(d: Cpu): Cpu {
    d.(esp := d.esp + 24, ebx := Rd(d.mem, d.esp + 4), edi := Rd(d.mem, d.esp + 8),
       esi := Rd(d.mem, d.esp + 12), ebp := Rd(d.mem, d.esp + 16), eip := Rd(d.mem, d.esp + 20))
  }

  /** Memory differs at most at the saved stack pointer of `page` and in its stack below `top`. */
  ghost predicate SameExcept(m: Mem, n: Mem, page: int, top: int) {
    forall a :: !(page + BLOCK_SIZE <= a < top) && a != page + ESP_SLOT ==> Rd(n, a) == Rd(m, a)
  }

  lemma SamePage(page: int, a: int)
    requires page % PAGE == 0 && page <= a < page + PAGE
    ensures PageOf(a) == page
  {
  }

  /** Memory differs at most in the stack of `page` below `top`. */
  ghost predicate StackOnly(m: Mem, n: Mem, page: int, top: int) {
    forall a :: !(page + BLOCK_SIZE <= a < top) ==> Rd(n, a) == Rd(m, a)
  }

  /** The saved stack pointer of a block does not lie in any stack. */
  lemma SlotIsNoStack(m: Mem, n: Mem, page: int, top: int, other: int)
    requires page % PAGE == 0 && other % PAGE == 0 && top <= page + PAGE && StackOnly(m, n, page, top)
    ensures Rd(n, other + ESP_SLOT) == Rd(m, other + ESP_SLOT)
  {
    var a := other + ESP_SLOT;
    if page + BLOCK_SIZE <= a < top {
      SamePage(page, a);
      SamePage(other, a);
    }
  }

  // ----- runs of many tasks

  /** What a task that does not run is waiting for: the return of a call of `task_switch` made
      in some processor state, or its first switch, to `entry` with frame pointer `ebp`, in a
      page prepared as in the memory `image`. */
  datatype Context = Called(call: Cpu) | Forged(top: int, ebp: int, entry: int, image: Mem)

  /** The processor, the page of the running task, and the contexts of the others, by page.
      `waiting` is a history variable: it records each call as it is made. */
  datatype Stacks = Stacks(cpu: Cpu, own: int, waiting: map<int, Context>)

  /** The next push of the running task goes into its own page, so masking the stack pointer of
      any function it calls gives that page. */
  ghost predicate OnOwnPage(c: Cpu, own: int) { own % PAGE == 0 && own <= c.esp - 4 < own + PAGE }

  /** Memory still holds what the switch to a waiting task needs, inside the task's own page. */
  ghost predicate Held(m: Mem, page: int, ctx: Context) {
    match ctx
    case Called(c) =>
      && page + BLOCK_SIZE <= c.esp - 28 && c.esp + 4 < page + PAGE
      && Rd(m, page + ESP_SLOT) == c.esp - 28 && CallFrame(m, c)
    case Forged(top, ebp, entry, image) =>
      && page + BLOCK_SIZE <= top && top + 8 <= page + PAGE
      && Rd(m, page + ESP_SLOT) == top && Rd(m, top) == ebp && Rd(m, top + 4) == entry
      && Keeps(image, m, page)
  }

  ghost predicate StacksInv(s: Stacks) {
    && OnOwnPage(s.cpu, s.own) && s.own !in s.waiting
    && forall p :: p in s.waiting ==> p % PAGE == 0 && Held(s.cpu.mem, p, s.waiting[p])
  }

  datatype Act =
    | Work
    | Spawn(page: int, ctx: Context)
    | SwitchTo(page: int, d: Cpu)
    | ExitTo(page: int, d: Cpu)

  /** The stack of a page and its saved stack pointer are the same in both memories; the rest of
      the process block may differ. */
  ghost predicate Keeps(m: Mem, n: Mem, page: int) {
    forall a :: page + BLOCK_SIZE <= a < page + PAGE || a == page + ESP_SLOT ==> Rd(n, a) == Rd(m, a)
  }

  /** Memory differs only in the pages `p` and `q` and in process blocks. */
  ghost predicate OthersKept(m: Mem, n: Mem, p: int, q: int) {
    forall page :: page % PAGE == 0 && page != p && page != q ==> Keeps(m, n, page)
  }

  /** Only `switch_stack`, and `sys_fork` and `init_idle` for a new task, write a saved stack pointer. */
  predicate KeepsSaved(m: Mem, n: Mem, page: int) { Rd(n, page + ESP_SLOT) == Rd(m, page + ESP_SLOT) }

  /** The running task can call `task_switch` for a waiting task, and the call ends in `d`. */
  ghost predicate CanSwitch(s: Stacks, page: int, d: Cpu) {
    && page in s.waiting
    && s.own + BLOCK_SIZE <= s.cpu.esp - 28 && s.cpu.esp + 4 < s.own + PAGE
    && Switched(s.cpu, d, s.own, page)
  }

  /** A woken task first leaves its `task_switch`, if it called it. */
  function Landed(d: Cpu, ctx: Context): Cpu { if ctx.Called? then Left(d) else d }

  /** One step: the running task computes in its own page and updates process blocks; it prepares
      a new page; it calls `task_switch`; or it exits by calling it for the last time. */
  ghost predicate Step(s: Stacks, a: Act, r: Stacks) {
    match a
    case Work =>
      && r.waiting == s.waiting && r.own == s.own && OnOwnPage(r.cpu, r.own)
      && OthersKept(s.cpu.mem, r.cpu.mem, s.own, s.own) && KeepsSaved(s.cpu.mem, r.cpu.mem, s.own)
    case Spawn(page, ctx) =>
      && page % PAGE == 0 && page != s.own && page !in s.waiting && ctx.Forged?
      && r.waiting == s.waiting[page := ctx] && r.own == s.own && OnOwnPage(r.cpu, r.own)
      && OthersKept(s.cpu.mem, r.cpu.mem, s.own, page) && KeepsSaved(s.cpu.mem, r.cpu.mem, s.own)
      && Held(r.cpu.mem, page, ctx)
    case SwitchTo(page, d) =>
      && CanSwitch(s, page, d)
      && r == Stacks(Landed(d, s.waiting[page]), page, (s.waiting - {page})[s.own := Called(s.cpu)])
    case ExitTo(page, d) =>
      && CanSwitch(s, page, d)
      && r == Stacks(Landed(d, s.waiting[page]), page, s.waiting - {page})
  }

  /** A waiting task keeps its words while memory changes elsewhere. */
  lemma HeldStays(m: Mem, n: Mem, page: int, ctx: Context)
    requires Held(m, page, ctx) && Keeps(m, n, page)
    ensures Held(n, page, ctx)
  {
  }

  lemma PagesApart(p: int, q: int)
    requires p % PAGE == 0 && q % PAGE == 0 && p != q
    ensures p + PAGE <= q || q + PAGE <= p
  {
  }

  /** A switch writes only in the page of the task that calls it. */
  lemma SwitchIsOwn(c: Cpu, d: Cpu, own: int, next: int, page: int)
    requires own % PAGE == 0 && page % PAGE == 0 && page != own && c.esp < own + PAGE && Switched(c, d, own, next)
    ensures Keeps(c.mem, d.mem, page)
  {
    PagesApart(own, page);
  }

  /** What a context comes back to. */
  ghost predicate Restored(ctx: Context, d: Cpu) {
    match ctx
    case Called(c) =>
      var r := Left(d);
      && d.eip == AFTER_INNER && r.esp == c.esp + 4 && r.eip == Rd(c.mem, c.esp)
      && r.ebp == c.ebp && r.ebx == c.ebx && r.esi == c.esi && r.edi == c.edi
    case Forged(top, ebp, entry, _) => d.esp == top + 8 && d.ebp == ebp && d.eip == entry
  }

  /** The switch to a waiting task: one that called `task_switch` is back where it called, with
      its stack pointer past the return address, its frame pointer, its callee-saved registers
      and its return address; a new one is at its entry. */
  lemma SwitchRestores(s: Stacks, page: int, d: Cpu)
    requires StacksInv(s) && CanSwitch(s, page, d)
    ensures Restored(s.waiting[page], d)
    ensures OnOwnPage(Landed(d, s.waiting[page]), page)
    ensures s.waiting[page].Forged? ==> Keeps(s.waiting[page].image, d.mem, page)
  {
    SwitchIsOwn(s.cpu, d, s.own, page, page);
    HeldStays(s.cpu.mem, d.mem, page, s.waiting[page]);
  }

  lemma StepKeepsStacks(s: Stacks, a: Act, r: Stacks)
    requires StacksInv(s) && Step(s, a, r)
    ensures StacksInv(r)
  {
    match a
    case Work =>
      forall p | p in s.waiting ensures Held(r.cpu.mem, p, s.waiting[p]) {
        HeldStays(s.cpu.mem, r.cpu.mem, p, s.waiting[p]);
      }
    case Spawn(page, ctx) =>
      forall p | p in s.waiting ensures Held(r.cpu.mem, p, s.waiting[p]) {
        HeldStays(s.cpu.mem, r.cpu.mem, p, s.waiting[p]);
      }
    case SwitchTo(page, d) => SwitchKeepsStacks(s, page, d, r);
    case ExitTo(page, d) => SwitchKeepsStacks(s, page, d, r);
  }

  lemma SwitchKeepsStacks(s: Stacks, page: int, d: Cpu, r: Stacks)
    requires StacksInv(s) && CanSwitch(s, page, d) && r.cpu == Landed(d, s.waiting[page]) && r.own == page
    requires r.waiting == s.waiting - {page} || r.waiting == (s.waiting - {page})[s.own := Called(s.cpu)]
    ensures StacksInv(r)
  {
    SwitchRestores(s, page, d);
    forall p | p in r.waiting && p != s.own ensures Held(r.cpu.mem, p, r.waiting[p]) {
      SwitchIsOwn(s.cpu, d, s.own, page, p);
      HeldStays(s.cpu.mem, d.mem, p, s.waiting[p]);
    }
  }

  ghost predicate StepAt(states: seq<Stacks>, acts: seq<Act>, i: nat) {
    i < |acts| && i + 1 < |states| && Step(states[i], acts[i], states[i + 1])
  }

  ghost predicate IsRun(states: seq<Stacks>, acts: seq<Act>) {
    |states| == |acts| + 1 && forall i :: 0 <= i < |acts| ==> StepAt(states, acts, i)
  }

  lemma {:induction false} RunKeepsStacks(states: seq<Stacks>, acts: seq<Act>, i: nat)
    requires IsRun(states, acts) && StacksInv(states[0]) && i <= |acts|
    ensures StacksInv(states[i])
    decreases i
  {
    if i > 0 {
      RunKeepsStacks(states, acts, i - 1);
      assert StepAt(states, acts, i - 1);
      StepKeepsStacks(states[i - 1], acts[i - 1], states[i]);
    }
  }

  /** Context-switch round trip: in every run, at every switch, the task switched to comes back to
      the context recorded when it last called `task_switch` (or to its entry). */
  lemma RoundTrip(states: seq<Stacks>, acts: seq<Act>, i: nat)
    requires IsRun(states, acts) && StacksInv(states[0]) && i < |acts|
    requires acts[i].SwitchTo? || acts[i].ExitTo?
    ensures acts[i].page in states[i].waiting && Restored(states[i].waiting[acts[i].page], acts[i].d)
    ensures var ctx := states[i].waiting[acts[i].page]; ctx.Forged? ==> Keeps(ctx.image, acts[i].d.mem, acts[i].page)
  {
    RunKeepsStacks(states, acts, i);
    assert StepAt(states, acts, i);
    SwitchRestores(states[i], acts[i].page, acts[i].d);
  }

  /** The child's page still is a copy with forged words at the end of `sys_fork`, in memory `r`, which
      since then has changed neither the child's stack nor the parent's frame. */
  lemma ForkedStackStays(m: Mem, n: Mem, r: Mem, parent: int, child: int, ebp: int)
    requires ForkedStack(m, n, parent, child, ebp) && (ebp - parent) % 4 == 0
    requires parent + BLOCK_SIZE <= ebp - 4 && ebp < parent + PAGE && Keeps(n, r, child)
    requires forall a :: ebp <= a < parent + PAGE ==> Rd(r, a) == Rd(m, a)
    ensures ForkedStack(r, r, parent, child, ebp)
  {
    forall k | ebp - parent < 4 * k < PAGE ensures WordAt(r, child, k) == WordAt(r, parent, k) {
      assert WordAt(n, child, k) == WordAt(m, parent, k);
    }
  }

  /** What `sys_fork` prepares is a context waiting for its first switch. */
  lemma ForkSpawns(m: Mem, n: Mem, parent: int, child: int, ebp: int)
    requires ForkedStack(m, n, parent, child, ebp) && parent + BLOCK_SIZE <= ebp - 4 && ebp < parent + PAGE - 4
    ensures Held(n, child, ForkContext(m, n, parent, child, ebp))
  {
  }

  function ForkContext(m: Mem, n: Mem, parent: int, child: int, ebp: int): Context {
    Forged(child + (ebp - parent) - 4, Rd(m, ebp), RET_FROM_FORK, n)
  }

  /** A forked child in a run: whenever it is first switched to, however many switches among other
      tasks come before, it enters user mode as the parent does, with eax = 0. */
  lemma ForkedChildInRun(states: seq<Stacks>, acts: seq<Act>, i: nat,
                         m: Mem, n: Mem, parent: int, p: Cpu, pid: int)
    requires IsRun(states, acts) && StacksInv(states[0]) && i < |acts|
    requires acts[i].SwitchTo? || acts[i].ExitTo?
    requires acts[i].page in states[i].waiting
    requires states[i].waiting[acts[i].page] == ForkContext(m, n, parent, acts[i].page, p.ebp)
    requires ForkedStack(m, n, parent, acts[i].page, p.ebp)
    requires (p.ebp - parent) % 4 == 0 && parent + BLOCK_SIZE <= p.ebp - 4 && p.ebp + 68 <= parent + PAGE
    requires forall a :: p.ebp <= a < parent + PAGE ==> Rd(p.mem, a) == Rd(m, a)
    ensures var x, y := FromFork(acts[i].d), ParentReturns(p, pid);
      && acts[i].d.eip == RET_FROM_FORK
      && x.eip == y.eip && x.ebp == y.ebp && x.esp - acts[i].page == y.esp - parent
      && UserView(x.mem, x.esp, x.eax) == UserView(y.mem, y.esp, y.eax).(eax := 0)
  {
    RoundTrip(states, acts, i);
    ForkReturnsTwice(m, n, parent, acts[i].page, p, acts[i].d, pid);
  }

  // ----- a task that switches to itself

  /** `sys_yield` with nobody else ready switches the task to itself. The saved stack pointer is
      read before it is stored, so the round trip works exactly when the pointer saved at the
      task's previous switch happens to be the one that this call is about to save. */
  lemma SelfSwitch(c: Cpu, d: Cpu, page: int)
    requires page + BLOCK_SIZE <= c.esp - 28 && c.esp + 4 < page + PAGE
    requires Switched(c, d, page, page)
    ensures Restored(Called(c), d) <==> Rd(c.mem, page + ESP_SLOT) == c.esp - 28
  {
  }

  /** The first process after boot has never been switched out; its saved stack pointer is 0, and
      a yield of its own takes the stack pointer to address 8. */
  lemma FirstYieldAlone(c: Cpu, d: Cpu, page: int)
    requires page + BLOCK_SIZE <= c.esp - 28 && c.esp + 4 < page + PAGE && page >= 0
    requires Switched(c, d, page, page) && Rd(c.mem, page + ESP_SLOT) == 0
    ensures d.esp == 8 && !Restored(Called(c), d)
  {
    SelfSwitch(c, d, page);
  }
}
