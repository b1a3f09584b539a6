/** The vendor register layer of the digitizer, seen as an abstract register file.

    The proprietary library offers a register read and a register write, each of which
    may fail. Here a device is a map from register addresses to 32-bit words, and
    whether a call succeeds is not under the caller's control: every call chooses its
    success flag freely, so contracts of callers must hold for every outcome. Every call
    is recorded in a ghost trace, so that callers can state exactly which registers they
    touched and in which order. */
module Vendor {

  /** The C `uint32_t` / `unsigned int` of the vendor interface. */
  type Word = bv32

  /** A register address (a C `uint32_t`). Kept as an integer rather than a bit-vector:
      addresses are only compared, never combined bitwise. */
  newtype Address = x: int | 0 <= x < 0x1_0000_0000

  /** The C `uint8_t` used for group and channel numbers. */
  type Byte = bv8

  /** One register access issued through the vendor layer, with its outcome. */
  datatype Access =
    | ReadAccess(addr: Address, ok: bool)
    | WriteAccess(addr: Address, value: Word, ok: bool)

  /** The content of register `addr` in the register file `regs`; an address never
      written reads as zero. */
  function Lookup(regs: map<Address, Word>, addr: Address): Word
  {
    if addr in regs then regs[addr] else 0
  }

  /** A digitizer behind an open device handle. */
  class Digitizer {
    /** The register file. */
    var regs: map<Address, Word>
    /** Every register access made so far, oldest first. */
    ghost var Trace: seq<Access>

    constructor (initial: map<Address, Word>)
      ensures regs == initial && Trace == []
    {
      regs := initial;
      Trace := [];
    }

    /** The register read. On success `value` is the register's content; on failure it
        is whatever the output variable happened to hold, so nothing is promised. */
    method ReadRegister(addr: Address) returns (ok: bool, value: Word)
      modifies this
      ensures regs == old(regs)
      ensures Trace == old(Trace) + [ReadAccess(addr, ok)]
      ensures ok ==> value == Lookup(regs, addr)
    {
      ok := *;
      if ok {
        value := Lookup(regs, addr);
      } else {
        value := *;
      }
      Trace := Trace + [ReadAccess(addr, ok)];
    }

    /** The register write. A failed write leaves every register as it was. */
    method WriteRegister(addr: Address, value: Word) returns (ok: bool)
      modifies this
      ensures regs == if ok then old(regs)[addr := value] else old(regs)
      ensures Trace == old(Trace) + [WriteAccess(addr, value, ok)]
    {
      ok := *;
      if ok {
        regs := regs[addr := value];
      }
      Trace := Trace + [WriteAccess(addr, value, ok)];
    }
  }
}
