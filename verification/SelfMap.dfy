/**
The self-map of the page tables (mm/memory.c): the last entry of a page directory points
at the directory itself, so that the tables can be reached through ordinary addresses.
Paging is the two-level 32-bit scheme of section 4.3 of the Intel SDM, Volume 3A.
*/
module SelfMap {
  type Word = x: int | 0 <= x < 0x1_0000_0000

  /** Physical memory, word by word. */
  type Memory = Word -> Word

  /** The three parts of a virtual address: bits 22 to 31, 12 to 21 and 0 to 11. */
  function Dir(v: Word): (r: nat)
    ensures r < 1024
  {
    v / 0x400000
  }

  function Tab(v: Word): (r: nat)
    ensures r < 1024
  {
    v / 0x1000 % 1024
  }

  function Off(v: Word): (r: nat)
    ensures r < 4096
  {
    v % 0x1000
  }

  /** An entry without its 12 flag bits. */
  function Frame(entry: Word): (r: Word)
    ensures r + 4095 < 0x1_0000_0000
  {
    entry - entry % 0x1000
  }

  /** The address of entry `i` of the table that `entry` points at. */
  function EntryOf(entry: Word, i: nat): Word
    requires i < 1024
  {
    Frame(entry) + 4 * i
  }

  /** Where the processor finds the directory entry and the table entry of an address. */
  function PdeAt(cr3: Word, v: Word): Word { EntryOf(cr3, Dir(v)) }

  function PteAt(mem: Memory, cr3: Word, v: Word): Word { EntryOf(mem(PdeAt(cr3, v)), Tab(v)) }

  /** The physical address behind a virtual one. */
  function Translate(mem: Memory, cr3: Word, v: Word): Word { Frame(mem(PteAt(mem, cr3, v))) + Off(v) }

  /** pte_ptr and pde_ptr; the sums do not leave 32 bits. */
  function PtePtr(v: Word): Word { 0xffc00000 + v / 0x400000 * 0x1000 + v / 0x1000 % 1024 * 4 }

  function PdePtr(v: Word): Word { 0xfffff000 + v / 0x400000 * 4 }

  /** addr_v2p: the entry is read through the self-map. */
  function AddrV2P(mem: Memory, cr3: Word, v: Word): Word {
    Frame(mem(Translate(mem, cr3, PtePtr(v)))) + Off(v)
  }

  /** The last entry of the directory holds the directory's own frame. */
  predicate SelfMapped(mem: Memory, cr3: Word) {
    Frame(mem(EntryOf(cr3, 1023))) == Frame(cr3)
  }

  lemma PteParts(v: Word)
    ensures Dir(PtePtr(v)) == 1023 && Tab(PtePtr(v)) == Dir(v) && Off(PtePtr(v)) == 4 * Tab(v)
  {
  }

  lemma PdeParts(v: Word)
    ensures Dir(PdePtr(v)) == 1023 && Tab(PdePtr(v)) == 1023 && Off(PdePtr(v)) == 4 * Dir(v)
  {
  }

  /** pte_ptr(v), read by the processor, is the table entry of v. */
  lemma PtePtrFinds(mem: Memory, cr3: Word, v: Word)
    requires SelfMapped(mem, cr3)
    ensures Translate(mem, cr3, PtePtr(v)) == PteAt(mem, cr3, v)
  {
    hide PtePtr, Dir, Tab, Off, Frame;
    PteParts(v);
  }

  /** pde_ptr(v), read by the processor, is the directory entry of v. */
  lemma PdePtrFinds(mem: Memory, cr3: Word, v: Word)
    requires SelfMapped(mem, cr3)
    ensures Translate(mem, cr3, PdePtr(v)) == PdeAt(cr3, v)
  {
    hide PdePtr, Dir, Tab, Off, Frame;
    PdeParts(v);
  }

  /** addr_v2p is the processor's translation. */
  lemma AddrV2PTranslates(mem: Memory, cr3: Word, v: Word)
    requires SelfMapped(mem, cr3)
    ensures AddrV2P(mem, cr3, v) == Translate(mem, cr3, v)
  {
    hide PtePtr, Dir, Tab, Off, Frame;
    PtePtrFinds(mem, cr3, v);
  }
}
