/** The first address space of the newer kernel: a page directory, a system page table and a user
    page table built by hand, each in a frame of its own, with paging still off. */
module AddressSpaces {
  import opened Layout

  const USER_PAGE := 1024
  const GDT_PAGE := 0x90
  const SCREEN_PAGE := 0xb8
  const FIRST_KERNEL := 0x10
  const LOGICAL_PAGES := 0x10_0000
  const SPACE_FRAMES := 32

  datatype Translation = Unmapped | To(frame: FrameNo, user: bool, rw: bool)

  /** What the processor makes of a logical page: the upper ten bits choose the directory entry,
      the lower ten the table entry; both levels must allow an access. */
  function Walk(pages: seq<Table>, cr3: FrameNo, page: nat): Translation
    requires |pages| == TOTAL_PAGES && page < LOGICAL_PAGES
  {
    var d := pages[cr3][page / TOTAL_PAGES];
    if !d.present then Unmapped else
      var e := pages[d.frame][page % TOTAL_PAGES];
      if !e.present then Unmapped else To(e.frame, d.user && e.user, d.rw && e.rw)
  }

  function FreeFrom(phys: Phys, i: nat): nat
    requires i <= TOTAL_PAGES
    decreases TOTAL_PAGES - i
  {
    if i == TOTAL_PAGES then 0 else (if phys[i] then 0 else 1) + FreeFrom(phys, i + 1)
  }

  lemma {:induction false} FreeFromMarked(phys: Phys, i: nat, f: FrameNo)
    requires i <= TOTAL_PAGES && !phys[f]
    ensures FreeFrom(phys[f := true], i) == FreeFrom(phys, i) - if f < i then 0 else 1
    decreases TOTAL_PAGES - i
  {
    if i < TOTAL_PAGES {
      FreeFromMarked(phys, i + 1, f);
    }
  }

  ghost predicate Ascending(fs: seq<FrameNo>) {
    forall i, j :: 0 <= i < j < |fs| ==> fs[i] < fs[j]
  }

  /** `fs` are frames that were free in `before`, in ascending order, and `after` is `before`
      with exactly these frames marked. */
  ghost predicate Taken(before: Phys, after: Phys, fs: seq<FrameNo>) {
    && Ascending(fs)
    && (forall f :: f in fs ==> !before[f])
    && (forall f: FrameNo :: after[f] <==> before[f] || f in fs)
  }

  /** `init_frames` has run: the kernel range, the GDT and the screen are in use. */
  ghost predicate AfterInitMm(phys: Phys, lastKernel: nat) {
    && FIRST_KERNEL <= lastKernel <= TOTAL_PAGES
    && (forall f :: FIRST_KERNEL <= f < lastKernel ==> phys[f])
    && phys[GDT_PAGE] && phys[SCREEN_PAGE]
  }

  /** The intended address space: below 4 MB the kernel, the GDT, the screen and the four system
      structures map to themselves for the kernel alone; from 4 MB come twenty writable data
      pages and eight read-only code pages of the user; nothing else is mapped. */
  function Intended(lastKernel: nat, own: seq<FrameNo>, code: seq<FrameNo>, data: seq<FrameNo>, page: nat): Translation
    requires |code| == NUM_PAG_CODE && |data| == NUM_PAG_DATA && lastKernel <= TOTAL_PAGES
  {
    if page < 1024 then
      if 0x10 <= page < lastKernel || page == 0x90 || page == 0xb8 || page in own then To(page, false, true)
      else Unmapped
    else if page < 1044 then To(data[page - 1024], true, true)
    else if page < 1052 then To(code[page - 1044], true, false)
    else Unmapped
  }

  function RangeEntry(end: nat, p: FrameNo): Pte {
    if FIRST_KERNEL <= p < end then Pte(p, false, true, true) else EMPTY
  }

  /** The system page table: the kernel range, the GDT, the screen and the frames `own`. */
  function SystemEntry(lastKernel: nat, own: seq<FrameNo>, p: FrameNo): Pte {
    if FIRST_KERNEL <= p < lastKernel || p == GDT_PAGE || p == SCREEN_PAGE || p in own then Pte(p, false, true, true)
    else EMPTY
  }

  function UserEntry(code: seq<FrameNo>, data: seq<FrameNo>, p: FrameNo): Pte
    requires |data| <= NUM_PAG_DATA
  {
    if p < |data| then Pte(data[p], true, true, true)
    else if NUM_PAG_DATA <= p < NUM_PAG_DATA + |code| then Pte(code[p - NUM_PAG_DATA], true, false, true)
    else EMPTY
  }

  /** All frames from `low` up to the last one taken are in use. */
  ghost predicate Packed(phys: Phys, low: nat, fs: seq<FrameNo>) {
    fs != [] ==> forall g: FrameNo :: low <= g <= fs[|fs| - 1] ==> phys[g]
  }

  class BootMemory {
    const phys: array<bool>
    /** Every frame, read as a page table. */
    const pages: array<Table>
    const lastKernel: nat
    var cr3: FrameNo

    ghost predicate Valid() {
      phys.Length == TOTAL_PAGES && pages.Length == TOTAL_PAGES && FIRST_KERNEL <= lastKernel <= TOTAL_PAGES
    }

    /** Memory at power-on, for kernel and user images of these sizes in bytes that end below
        the last frame. */
    constructor (sysSize: nat, usrSize: nat)
      requires (0x10000 + sysSize + usrSize) / PAGE_SIZE < TOTAL_PAGES
      ensures Valid() && lastKernel == (0x10000 + sysSize + usrSize) / PAGE_SIZE + 1
      ensures fresh(phys) && fresh(pages)
    {
      phys := new bool[TOTAL_PAGES](_ => false);
      pages := new Table[TOTAL_PAGES](_ => BLANK_TABLE);
      lastKernel := (0x10000 + sysSize + usrSize) / PAGE_SIZE + 1;
      cr3 := 0;
    }

    method InitFrames()
      requires Valid()
      modifies phys
      ensures AfterInitMm(phys[..], lastKernel)
      ensures forall f: FrameNo :: phys[f] <==> FIRST_KERNEL <= f < lastKernel || f == GDT_PAGE || f == SCREEN_PAGE
    {
      for i := 0 to TOTAL_PAGES
        invariant forall j :: 0 <= j < i ==> !phys[j]
      {
        phys[i] := false;
      }
      for i := FIRST_KERNEL to lastKernel
        invariant forall j: FrameNo :: phys[j] <==> FIRST_KERNEL <= j < i
      {
        phys[i] := true;
      }
      phys[GDT_PAGE] := true;
      phys[SCREEN_PAGE] := true;
    }

    /** `alloc_frame`: the lowest free frame above the kernel, or -1. */
    method AllocFrame() returns (f: int)
      requires Valid()
      modifies phys
      ensures f == -1 ==> FreeFrom(old(phys[..]), lastKernel) == 0 && phys[..] == old(phys[..])
      ensures f != -1 ==> lastKernel <= f < TOTAL_PAGES && !old(phys[f]) && phys[..] == old(phys[..])[f := true]
      ensures f != -1 ==> forall g :: lastKernel <= g < f ==> old(phys[g])
      ensures f != -1 ==> FreeFrom(phys[..], lastKernel) == FreeFrom(old(phys[..]), lastKernel) - 1
    {
      for i := lastKernel to TOTAL_PAGES
        invariant phys[..] == old(phys[..]) && forall g :: lastKernel <= g < i ==> phys[g]
        invariant FreeFrom(phys[..], i) == FreeFrom(phys[..], lastKernel)
      {
        if !phys[i] {
          FreeFromMarked(phys[..], lastKernel, i);
          phys[i] := true;
          return i;
        }
      }
      return -1;
    }

    method SetEntry(table: FrameNo, page: FrameNo, e: Pte)
      requires Valid()
      modifies pages
      ensures pages[..] == old(pages[..])[table := old(pages[table])[page := e]]
    {
      pages[table] := pages[table][page := e];
    }

    method SetSsPag(table: FrameNo, page: FrameNo, frame: FrameNo, user: bool)
      requires Valid()
      modifies pages
      ensures pages[..] == old(pages[..])[table := old(pages[table])[page := Pte(frame, user, true, true)]]
    {
      SetEntry(table, page, Pte(frame, user, true, true));
    }

    method ClearPageTable(table: FrameNo)
      requires Valid()
      modifies pages
      ensures pages[..] == old(pages[..])[table := BLANK_TABLE]
    {
      for i := 0 to TOTAL_PAGES
        invariant pages[..] == old(pages[..])[table := pages[table]]
        invariant forall p :: 0 <= p < i ==> pages[table][p] == EMPTY
      {
        SetEntry(table, i, EMPTY);
      }
      assert pages[table] == BLANK_TABLE;
    }

    /** `set_kernel_pages` on a cleared table. */
    method SetKernelPages(table: FrameNo)
      requires Valid() && pages[table] == BLANK_TABLE
      modifies pages
      ensures pages[..] == old(pages[..])[table := pages[table]]
      ensures forall p: FrameNo :: 0x10 <= p < lastKernel || p == 0x90 || p == 0xb8 ==>
        pages[table][p] == Pte(p, false, true, true)
      ensures forall p: FrameNo :: !(0x10 <= p < lastKernel || p == 0x90 || p == 0xb8) ==>
        pages[table][p] == Pte(0, false, false, false)
    {
      for i := FIRST_KERNEL to lastKernel
        invariant pages[..] == old(pages[..])[table := pages[table]]
        invariant forall p: FrameNo :: pages[table][p] == RangeEntry(i, p)
      {
        SetSsPag(table, i, i, false);
      }
      SetSsPag(table, GDT_PAGE, GDT_PAGE, false);
      SetSsPag(table, SCREEN_PAGE, SCREEN_PAGE, false);
    }

    /** One allocation that cannot fail, appended to the series `fs` taken since `before`. */
    method AllocNext(ghost before: Phys, ghost fs: seq<FrameNo>) returns (f: FrameNo)
      requires Valid() && FreeFrom(phys[..], lastKernel) > 0
      requires Series(before, phys[..], lastKernel, fs)
      modifies phys
      ensures Series(before, phys[..], lastKernel, fs + [f])
      ensures FreeFrom(phys[..], lastKernel) == FreeFrom(old(phys[..]), lastKernel) - 1
    {
      var r := AllocFrame();
      f := r;
    }

    method SetCodePages(table: FrameNo, ghost before: Phys, ghost fs: seq<FrameNo>) returns (code: seq<FrameNo>)
      requires Valid() && pages[table] == BLANK_TABLE && FreeFrom(phys[..], lastKernel) >= NUM_PAG_CODE
      requires Series(before, phys[..], lastKernel, fs)
      modifies phys, pages
      ensures |code| == NUM_PAG_CODE && Series(before, phys[..], lastKernel, fs + code)
      ensures FreeFrom(phys[..], lastKernel) == FreeFrom(old(phys[..]), lastKernel) - NUM_PAG_CODE
      ensures pages[..] == old(pages[..])[table := pages[table]]
      ensures forall p: FrameNo :: pages[table][p] == UserEntry(code, [], p)
    {
      code := [];
      assert fs + code == fs;
      for pag := 0 to NUM_PAG_CODE
        invariant |code| == pag && Series(before, phys[..], lastKernel, fs + code)
        invariant FreeFrom(phys[..], lastKernel) == FreeFrom(old(phys[..]), lastKernel) - pag
        invariant pages[..] == old(pages[..])[table := pages[table]]
        invariant forall p: FrameNo :: pages[table][p] == UserEntry(code, [], p)
      {
        var frame := AllocNext(before, fs + code);
        SetEntry(table, NUM_PAG_DATA + pag, Pte(frame, true, false, true));
        assert (fs + code) + [frame] == fs + (code + [frame]);
        code := code + [frame];
      }
    }

    method SetDataPages(table: FrameNo, ghost code: seq<FrameNo>, ghost before: Phys, ghost fs: seq<FrameNo>)
      returns (data: seq<FrameNo>)
      requires Valid() && |code| == NUM_PAG_CODE && FreeFrom(phys[..], lastKernel) >= NUM_PAG_DATA
      requires forall p: FrameNo :: pages[table][p] == UserEntry(code, [], p)
      requires Series(before, phys[..], lastKernel, fs)
      modifies phys, pages
      ensures |data| == NUM_PAG_DATA && Series(before, phys[..], lastKernel, fs + data)
      ensures pages[..] == old(pages[..])[table := pages[table]]
      ensures forall p: FrameNo :: pages[table][p] == UserEntry(code, data, p)
    {
      data := [];
      assert fs + data == fs;
      for pag := 0 to NUM_PAG_DATA
        invariant |data| == pag && Series(before, phys[..], lastKernel, fs + data)
        invariant FreeFrom(phys[..], lastKernel) == FreeFrom(old(phys[..]), lastKernel) - pag
        invariant pages[..] == old(pages[..])[table := pages[table]]
        invariant forall p: FrameNo :: pages[table][p] == UserEntry(code, data, p)
      {
        var frame := AllocNext(before, fs + data);
        SetEntry(table, pag, Pte(frame, true, true, true));
        assert (fs + data) + [frame] == fs + (data + [frame]);
        data := data + [frame];
      }
    }

    /** `set_user_pages` on a cleared table: frames go to the code pages first. */
    method SetUserPages(table: FrameNo, ghost before: Phys, ghost fs: seq<FrameNo>)
      returns (code: seq<FrameNo>, data: seq<FrameNo>)
      requires Valid() && pages[table] == BLANK_TABLE && FreeFrom(phys[..], lastKernel) >= NUM_PAG_CODE + NUM_PAG_DATA
      requires Series(before, phys[..], lastKernel, fs)
      modifies phys, pages
      ensures |code| == NUM_PAG_CODE && |data| == NUM_PAG_DATA
      ensures Series(before, phys[..], lastKernel, fs + (code + data))
      ensures pages[..] == old(pages[..])[table := pages[table]]
      ensures forall p: FrameNo :: pages[table][p] == UserEntry(code, data, p)
    {
      code := SetCodePages(table, before, fs);
      data := SetDataPages(table, code, before, fs + code);
      assert (fs + code) + data == fs + (code + data);
    }

    /** The four frames of the directory, the two tables and the process block. */
    method AllocOwn(ghost before: Phys) returns (own: seq<FrameNo>)
      requires Valid() && before == phys[..] && FreeFrom(phys[..], lastKernel) >= SPACE_FRAMES
      modifies phys
      ensures |own| == 4 && Series(before, phys[..], lastKernel, own)
      ensures FreeFrom(phys[..], lastKernel) >= SPACE_FRAMES - 4
    {
      var dir := AllocNext(before, []);
      var spt := AllocNext(before, [dir]);
      assert [dir] + [spt] == [dir, spt];
      var upt := AllocNext(before, [dir, spt]);
      assert [dir, spt] + [upt] == [dir, spt, upt];
      var pcb := AllocNext(before, [dir, spt, upt]);
      assert [dir, spt, upt] + [pcb] == [dir, spt, upt, pcb];
      own := [dir, spt, upt, pcb];
    }

    /** The identity mappings of the system structures, on top of the kernel pages. */
    method MapOwn(spt: FrameNo, own: seq<FrameNo>)
      requires Valid() && |own| == 4
      requires forall p: FrameNo :: pages[spt][p] == SystemEntry(lastKernel, [], p)
      modifies pages
      ensures pages[..] == old(pages[..])[spt := pages[spt]]
      ensures forall p: FrameNo :: pages[spt][p] == SystemEntry(lastKernel, own, p)
    {
      for i := 0 to 4
        invariant pages[..] == old(pages[..])[spt := pages[spt]]
        invariant forall p: FrameNo :: pages[spt][p] == SystemEntry(lastKernel, own[..i], p)
      {
        SetSsPag(spt, own[i], own[i], false);
        assert own[..i + 1] == own[..i] + [own[i]];
      }
      assert own[..4] == own;
    }

    /** The two directory entries: system tables for the kernel, user table for everyone. */
    method LinkTables(dir: FrameNo, spt: FrameNo, upt: FrameNo)
      requires Valid() && pages[dir] == BLANK_TABLE
      modifies pages
      ensures pages[..] == old(pages[..])[dir :=
        BLANK_TABLE[0 := Pte(spt, false, true, true)][1 := Pte(upt, true, true, true)]]
    {
      SetEntry(dir, 0, EMPTY);
      SetEntry(dir, 0, Pte(spt, false, true, true));
      SetEntry(dir, 1, EMPTY);
      SetEntry(dir, 1, Pte(upt, true, true, true));
      assert pages[dir] == BLANK_TABLE[0 := Pte(spt, false, true, true)][1 := Pte(upt, true, true, true)];
    }

    /** `init_task1`: with 32 frames free above the kernel, the processor then sees exactly the
        intended address space, built on 32 frames that were free. */
    method InitTask1() returns (own: seq<FrameNo>, code: seq<FrameNo>, data: seq<FrameNo>)
      requires Valid() && AfterInitMm(phys[..], lastKernel) && FreeFrom(phys[..], lastKernel) >= SPACE_FRAMES
      modifies phys, pages, `cr3
      ensures |own| == 4 && |code| == NUM_PAG_CODE && |data| == NUM_PAG_DATA && cr3 == own[0]
      ensures Series(old(phys[..]), phys[..], lastKernel, own + (code + data))
      ensures forall page: nat :: page < LOGICAL_PAGES ==>
        Walk(pages[..], cr3, page) == Intended(lastKernel, own, code, data, page)
    {
      ghost var before := phys[..];
      own := AllocOwn(before);
      var dir, spt, upt := own[0], own[1], own[2];
      ClearPageTable(dir);
      ClearPageTable(spt);
      ClearPageTable(upt);
      SetKernelPages(spt);
      code, data := SetUserPages(upt, before, own);
      MapOwn(spt, own);
      LinkTables(dir, spt, upt);
      cr3 := dir;
      WalkIsIntended(pages[..], lastKernel, own, code, data);
    }
  }

  lemma WalkIsIntended(pages: seq<Table>, lastKernel: nat, own: seq<FrameNo>, code: seq<FrameNo>, data: seq<FrameNo>)
    requires |pages| == TOTAL_PAGES && lastKernel <= TOTAL_PAGES
    requires |own| == 4 && |code| == NUM_PAG_CODE && |data| == NUM_PAG_DATA
    requires pages[own[0]] == BLANK_TABLE[0 := Pte(own[1], false, true, true)][1 := Pte(own[2], true, true, true)]
    requires forall p: FrameNo :: pages[own[1]][p] == SystemEntry(lastKernel, own, p)
    requires forall p: FrameNo :: pages[own[2]][p] == UserEntry(code, data, p)
    ensures forall page: nat :: page < LOGICAL_PAGES ==>
      Walk(pages, own[0], page) == Intended(lastKernel, own, code, data, page)
  {
    forall page: nat | page < LOGICAL_PAGES
      ensures Walk(pages, own[0], page) == Intended(lastKernel, own, code, data, page)
    {
      var d, p := page / TOTAL_PAGES, page % TOTAL_PAGES;
      assert page == TOTAL_PAGES * d + p;
      if d == 0 {
        assert pages[own[1]][p] == SystemEntry(lastKernel, own, p);
      } else if d == 1 {
        assert pages[own[2]][p] == UserEntry(code, data, p);
      }
    }
  }

  /** The address space is injective: two different logical pages never share a frame. */
  lemma IntendedIsInjective(before: Phys, after: Phys, lastKernel: nat,
                            own: seq<FrameNo>, code: seq<FrameNo>, data: seq<FrameNo>, p: nat, q: nat)
    requires AfterInitMm(before, lastKernel) && Series(before, after, lastKernel, own + (code + data))
    requires |code| == NUM_PAG_CODE && |data| == NUM_PAG_DATA && p < q
    ensures var x, y := Intended(lastKernel, own, code, data, p), Intended(lastKernel, own, code, data, q);
      x.To? && y.To? ==> x.frame != y.frame
  {
    var fs := own + (code + data);
    if USER_PAGE <= q < USER_PAGE + NUM_PAG_DATA + NUM_PAG_CODE {
      var j := UserIndex(own, code, data, q);
      assert fs[j] in fs;
      if USER_PAGE <= p {
        var i := UserIndex(own, code, data, p);
      } else if p < TOTAL_PAGES && p in own {
        var i :| 0 <= i < |own| && own[i] == p;
        assert fs[i] == p;
      }
    }
  }

  /** Where in the series of allocations the frame of a user page was taken. */
  lemma UserIndex(own: seq<FrameNo>, code: seq<FrameNo>, data: seq<FrameNo>, page: nat) returns (i: nat)
    requires |code| == NUM_PAG_CODE && |data| == NUM_PAG_DATA
    requires USER_PAGE <= page < USER_PAGE + NUM_PAG_DATA + NUM_PAG_CODE
    ensures i == |own| + if page < USER_PAGE + NUM_PAG_DATA then page - USER_PAGE + NUM_PAG_CODE
                         else page - USER_PAGE - NUM_PAG_DATA
    ensures var fs := own + (code + data); i < |fs| && Intended(0, own, code, data, page).frame == fs[i]
  {
    i := |own| + if page < USER_PAGE + NUM_PAG_DATA then page - USER_PAGE + NUM_PAG_CODE
                 else page - USER_PAGE - NUM_PAG_DATA;
  }

  /** A series of allocations, each of the lowest frame free at the time. */
  ghost predicate Series(before: Phys, after: Phys, low: nat, fs: seq<FrameNo>) {
    Taken(before, after, fs) && Packed(after, low, fs) && forall g :: g in fs ==> g >= low
  }
}
