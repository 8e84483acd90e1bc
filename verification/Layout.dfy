/** Constants and value types of the machine: 10 process slots, 1024 frames of 4096 bytes,
    one page table of 1024 entries per slot. */
module Layout {
  const NR_TASKS := 10
  const TOTAL_PAGES := 1024
  const NUM_PAG_KERNEL := 256
  const PAG_LOG_INIT_CODE := 256
  const NUM_PAG_CODE := 8
  const PAG_LOG_INIT_DATA := 264
  const NUM_PAG_DATA := 20
  const FIRST_TEMP := 284
  const PAGE_SIZE := 4096
  const DEFAULT_QUANTUM := 10
  const FIRST_PID := 1000
  const WORD := 0x1_0000_0000
  const STATS_SIZE := 28
  const KEYS_SIZE := 128

  const EAGAIN := 11
  const ENOMEM := 12
  const ESRCH := 3
  const EFAULT := 14
  const EINVAL := 22

  type Byte = b: int | 0 <= b < 256
  type Word = w: int | 0 <= w < WORD
  type Slot = i: int | 0 <= i < NR_TASKS
  type FrameNo = f: int | 0 <= f < TOTAL_PAGES

  /** The fields of a page-table entry that the kernel uses. */
  datatype Pte = Pte(frame: FrameNo, user: bool, rw: bool, present: bool)

  const EMPTY := Pte(0, false, false, false)

  /** What `set_ss_pag` writes: every permission bit is set, whatever it was before. */
  function Mapped(frame: FrameNo): Pte { Pte(frame, true, true, true) }

  type Keys = k: seq<Byte> | |k| == KEYS_SIZE witness seq(KEYS_SIZE, _ => 0)
  type Page = p: seq<Byte> | |p| == PAGE_SIZE witness seq(PAGE_SIZE, _ => 0)
  type Table = t: seq<Pte> | |t| == TOTAL_PAGES witness seq(TOTAL_PAGES, _ => EMPTY)
  const BLANK_PAGE: Page := seq(PAGE_SIZE, _ => 0)
  const BLANK_TABLE: Table := seq(TOTAL_PAGES, _ => EMPTY)
  type Phys = p: seq<bool> | |p| == TOTAL_PAGES witness seq(TOTAL_PAGES, _ => false)
  type Memory = m: seq<Page> | |m| == TOTAL_PAGES witness seq<Page>(TOTAL_PAGES, _ => BLANK_PAGE)
  type Tables = t: seq<Table> | |t| == NR_TASKS witness seq<Table>(NR_TASKS, _ => BLANK_TABLE)

  ghost predicate Distinct<T>(q: seq<T>) {
    forall i, j :: 0 <= i < j < |q| ==> q[i] != q[j]
  }

  /** Numbers that differ by a multiple of the word size wrap around to the same word. */
  lemma SameResidue(x: int, y: int, k: int)
    requires x == y - k * WORD
    ensures x % WORD == y % WORD
  {
  }
}
