/** What the kernel objects share: return codes, 16- and 8-bit counters. */
module Kernel {

  /** The return code of a call, or that the caller has been put to sleep. */
  datatype Status = Ok | TimedOut | Full | Refused | Blocked

  const UINT8 := 0x100
  const UINT16 := 0x1_0000

  function Inc8(x: nat): nat { (x + 1) % UINT8 }
  function Dec8(x: nat): nat { (x + UINT8 - 1) % UINT8 }
  function Inc16(x: nat): nat { (x + 1) % UINT16 }
  function Dec16(x: nat): nat { (x + UINT16 - 1) % UINT16 }
}
