/** The constants of include/sched.h and include/mm_address.h. */
module Config {
  const NR_TASKS: nat := 10
  const TOTAL_PAGES: nat := 1024
  const NUM_PAG_KERNEL: nat := 256
  const NUM_PAG_CODE: nat := 8
  const NUM_PAG_DATA: nat := 20
  const PAG_LOG_INIT_DATA: nat := 256
  const PAG_LOG_INIT_CODE: nat := 276
  /** The page sys_fork maps the child's frames at while it copies: 0x3FF000 >> 12. */
  const TEMP_PAG: nat := 1023
  const PAGE_SIZE: nat := 4096
  const KERNEL_STACK_SIZE: nat := 1024
  const INIT_QUANTUM: int := 100
  const IDLE_QUANTUM: int := 1
  /** The null parent pointer. */
  const NOBODY: int := -1

  /** The values themselves. */
  lemma Values()
    ensures NR_TASKS == 10 && KERNEL_STACK_SIZE == 1024
    ensures TOTAL_PAGES == 1024 && NUM_PAG_KERNEL == 256 && PAGE_SIZE == 0x1000
    ensures NUM_PAG_CODE == 8 && NUM_PAG_DATA == 20
    ensures PAG_LOG_INIT_DATA == 0x100000 / 0x1000 && PAG_LOG_INIT_CODE == PAG_LOG_INIT_DATA + 20
    ensures TEMP_PAG == 0x3FF000 / 0x1000
  {
  }

  /** Every second user frame, of those alloc_frame can hand out, is enough for the code and the data of all slots. */
  lemma EnoughFrames()
    ensures 2 * (NUM_PAG_CODE + NUM_PAG_DATA * (NR_TASKS - 1)) <= TOTAL_PAGES - NUM_PAG_KERNEL
  {
  }
}
