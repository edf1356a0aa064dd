/** Address types and build-time constants of the arm64 CPU-control layer. */
module CpuTypes {

  /** A 64-bit register or pointer value (uintptr_t, u64). */
  type Word = bv64

  /** Virtual and physical addresses are distinct wrappers, never interchangeable. */
  datatype VirtualAddress = VirtualAddress(bits: Word)
  datatype PhysicalAddress = PhysicalAddress(bits: Word)

  /** Cache line sizes of the Cortex-A57/A53 cores the kernel targets. */
  const InstructionCacheLineSize: nat := 0x40
  const DataCacheLineSize: nat := 0x40

  /** Number of cores of the board the kernel is built for. */
  const NumCores: nat := 4

  /** The kernel's page size: 4 KiB. */
  const PageSize: Word := 0x1000

  /**
   * A value is aligned when the bits below the (non-zero, power-of-two) alignment
   * are clear; for a power of two this is the same as being a multiple of it.
   */
  predicate IsAligned(value: Word, alignment: Word)
    requires alignment != 0
  {
    value & (alignment - 1) == 0
  }
}
