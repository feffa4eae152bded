/** The 32-bit machine the system runs on. */
module Machine {

  /** An unsigned machine word. Stores into one are checked, so no arithmetic wraps around. */
  type Word = x: int | 0 <= x < 0x1_0000_0000
}
