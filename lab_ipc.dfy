/**
 * The parameters and the command packet shared between the lab's user-space
 * attacker and the kernel module (lab2-spectre/inc/labspectreipc.h).
 */
module LabSpectreIpc {

  /** C's `uint32_t` and `uint64_t` / `size_t` on a 64-bit kernel. */
  type u32 = x: int | 0 <= x < 0x1_0000_0000
  type u64 = x: int | 0 <= x < 0x1_0000_0000_0000_0000

  /** 2^64: unsigned 64-bit arithmetic wraps modulo this value. */
  const U64Modulus: nat := 0x1_0000_0000_0000_0000

  const PageSize: nat := 0x1000

  /** How many pages user space shares with the kernel. */
  const SharedMemoryNumPages: nat := 256

  /** Size of the shared region in bytes: 256 pages of 4096 bytes. */
  const SharedMemorySize: nat := PageSize * SharedMemoryNumPages

  /** Capacity of each secret buffer in bytes. */
  const SecretMaxLen: nat := 64

  /** The values of the `spectre_lab_command_kind` enumeration. */
  const CommandPart1: u32 := 0
  const CommandPart2: u32 := 1
  const CommandPart3: u32 := 2

  /**
   * A `spectre_lab_command` packet. `kind` is whatever 32-bit value the caller
   * wrote, not necessarily one of the three enumerators; `arg1` is the user
   * address of the shared region and `arg2` the offset into a secret.
   */
  datatype Command = Command(kind: u32, arg1: u64, arg2: u64)
}
