/** Constants of the machine and of its address space layout. */
module Machine {
  const PAGE: nat := 4096

  /** The end of the lower half, where user addresses stop. */
  const USER_TOP: nat := 0x8000_0000_0000

  /** Where the heap of every process starts. */
  const HEAP_BASE: nat := 0x1000_0000

  /** Words have 64 bits. */
  const WORD_LIMIT: nat := 0x1_0000_0000_0000_0000
}
