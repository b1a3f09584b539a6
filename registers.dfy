/** The two register access helpers of the digitizer driver: reading back the DC
    offset of one channel, and writing a new DC offset for one channel.

    Both are free functions over an open device; here they take the `Digitizer` whose
    register file they read and write. A group is one half of the board (channels 0-7
    and 8-15) and is reached through three registers of its own: a channel-select
    latch, the DC offset register and a group status register. */
module Registers {
  import opened Vendor

  datatype Option<T> = None | Some(value: T)

  /** The registers through which one group is reached. */
  datatype GroupRegs = GroupRegs(select: Address, offset: Address, status: Address)

  /** Addresses of group 0 (channels 0-7) and group 1 (channels 8-15). */
  function GroupRegisters(group: Byte): GroupRegs
    requires group <= 1
  {
    if group == 0 then GroupRegs(0x10A4, 0x1098, 0x1088)
    else GroupRegs(0x11A4, 0x1198, 0x1188)
  }

  function Addresses(r: GroupRegs): set<Address>
  {
    {r.select, r.offset, r.status}
  }

  /** A group's three registers are distinct, and the two groups share none. */
  lemma GroupRegistersDisjoint(g: Byte, h: Byte)
    requires g <= 1 && h <= 1
    ensures |Addresses(GroupRegisters(g))| == 3
    ensures g != h ==> Addresses(GroupRegisters(g)) !! Addresses(GroupRegisters(h))
  {
  }

  /** The range check both helpers make before touching any register. */
  predicate ValidTarget(group: Byte, channel: Byte)
  {
    channel <= 7 && group <= 1
  }

  /** The offset check of `writeDCOffset` as written: it rejects only values above
      65536, so 65536 itself (bit 16 set) is admitted. */
  predicate OffsetAdmitted(offset: Word)
  {
    !(offset > 65536)
  }

  /** Bit 1 of a group status register: the group is busy and must not be written. */
  predicate Busy(status: Word)
  {
    status & 0x2 == 0x2
  }

  /** The word written to the offset register: the offset in the low bits, OR-ed with
      the channel number moved to bit 16 and up. For a channel of 0-7 and an offset of
      16 bits both parts are recovered from the word. */
  function PackOffset(channel: Byte, offset: Word): (w: Word)
    ensures offset <= 0xFFFF ==> w & 0xFFFF == offset
    ensures channel <= 7 && offset <= 0xFFFF ==> w >> 16 == channel as Word
  {
    var high := (channel as Word) << 16;
    assert high & 0xFFFF == 0;
    assert channel <= 7 ==> high >> 16 == channel as Word && high <= 0x7_0000;
    offset | high
  }

  /** Witness that the offset check as written admits a value that does not fit in 16
      bits, and that packing it for channel 0 yields the word for channel 1, offset 0. */
  lemma GuardAdmitsOverflowingOffset()
    ensures OffsetAdmitted(65536)
    ensures PackOffset(0, 65536) == PackOffset(1, 0)
    ensures PackOffset(0, 65536) >> 16 == 1 && PackOffset(0, 65536) & 0xFFFF == 0
  {
  }

  /** The offset word with the range check the 16-bit offset field calls for: defined
      exactly for channels 0-7 and offsets 0-65535, and then both are recovered. */
  function OffsetWord(channel: Byte, offset: Word): (r: Option<Word>)
    ensures r.Some? <==> channel <= 7 && offset <= 0xFFFF
    ensures r.Some? ==> r.value & 0xFFFF == offset && r.value >> 16 == channel as Word
  {
    if channel <= 7 && offset <= 0xFFFF then Some(PackOffset(channel, offset)) else None
  }

  /** The accesses `channelOffset` makes for a valid group and channel: the write of
      the channel to the select latch and, only if that write succeeds, the read of the
      offset register. */
  function SelectAccesses(g: GroupRegs, channel: Byte, selected: bool, readOk: bool): seq<Access>
  {
    [WriteAccess(g.select, channel as Word, selected)]
    + (if selected then [ReadAccess(g.offset, readOk)] else [])
  }

  /** The accesses `writeDCOffset` makes for valid arguments: the read of the status
      register and, only if that read succeeds and the group is not busy, one write of
      `w` to the offset register. */
  function OffsetAccesses(g: GroupRegs, w: Word, statusOk: bool, busy: bool, written: bool): seq<Access>
  {
    [ReadAccess(g.status, statusOk)]
    + (if statusOk && !busy then [WriteAccess(g.offset, w, written)] else [])
  }

  /** `channelOffset`: select `channel` in the group's latch, then read the group's
      offset register and keep its low 16 bits. `selected` and `readOk` report the
      outcomes of the two vendor calls. Out-of-range arguments give 0 and no access;
      a failed select gives 0 and no read; a failed read gives an unspecified value,
      still below 65536. Only the select latch can change. */
  method ChannelOffset(d: Digitizer, group: Byte, channel: Byte)
    returns (r: Word, ghost selected: bool, ghost readOk: bool)
    modifies d
    ensures r <= 0xFFFF
    ensures !ValidTarget(group, channel) ==>
              r == 0 && d.regs == old(d.regs) && d.Trace == old(d.Trace)
    ensures ValidTarget(group, channel) ==>
              var g := GroupRegisters(group);
              && d.Trace == old(d.Trace) + SelectAccesses(g, channel, selected, readOk)
              && d.regs == (if selected then old(d.regs)[g.select := channel as Word]
                            else old(d.regs))
              && (!selected ==> r == 0)
              && (selected && readOk ==> r == Lookup(old(d.regs), g.offset) & 0xFFFF)
  {
    selected, readOk := false, false;
    if channel > 7 {
      return 0, selected, readOk;
    }
    if group > 1 {
      return 0, selected, readOk;
    }
    var g := GroupRegisters(group);
    var ok := d.WriteRegister(g.select, channel as Word);
    selected := ok;
    if !ok {
      return 0, selected, readOk;
    }
    var readDone, dcOffset := d.ReadRegister(g.offset);
    readOk := readDone;
    r := dcOffset & 0xFFFF;
  }

  /** `writeDCOffset`: check the arguments (with the offset check as written), read the
      group status register, and unless that read fails or the group is busy, write the
      packed channel and offset to the group's offset register, once. The result is true
      exactly when that write happened and succeeded; `statusOk` reports the outcome of
      the status read. Nothing but the offset register can change. */
  method WriteDCOffset(d: Digitizer, group: Byte, channel: Byte, offset: Word)
    returns (ok: bool, ghost statusOk: bool)
    modifies d
    ensures !ValidTarget(group, channel) || !OffsetAdmitted(offset) ==>
              !ok && d.regs == old(d.regs) && d.Trace == old(d.Trace)
    ensures ValidTarget(group, channel) && OffsetAdmitted(offset) ==>
              var g := GroupRegisters(group);
              var busy := Busy(Lookup(old(d.regs), g.status));
              var w := PackOffset(channel, offset);
              && d.Trace == old(d.Trace) + OffsetAccesses(g, w, statusOk, busy, ok)
              && (ok ==> statusOk && !busy)
              && d.regs == (if ok then old(d.regs)[g.offset := w] else old(d.regs))
  {
    statusOk := false;
    if channel > 7 {
      return false, statusOk;
    }
    if group > 1 {
      return false, statusOk;
    }
    var g := GroupRegisters(group);
    if offset > 65536 {
      return false, statusOk;
    }
    var readDone, status := d.ReadRegister(g.status);
    statusOk := readDone;
    if !readDone {
      return false, statusOk;
    }
    if 0x2 == status & 0x2 {
      return false, statusOk;
    }
    var toWrite := offset;
    toWrite := toWrite | ((channel as Word) << 16);
    ok := d.WriteRegister(g.offset, toWrite);
  }

  /** The register accesses of reading an offset, writing it back unchanged and reading
      it again, when every vendor call succeeds and the group is not busy. */
  function RoundTripTrace(g: GroupRegs, channel: Byte, v: Word): seq<Access>
  {
    SelectAccesses(g, channel, true, true)
    + OffsetAccesses(g, PackOffset(channel, v), true, false, true)
    + SelectAccesses(g, channel, true, true)
  }

  /** Only the all-success outcome of the three calls produces the round-trip trace. */
  lemma RoundTripOutcomes(g: GroupRegs, channel: Byte, v: Word,
                          s1: bool, r1: bool, statusOk: bool, busy: bool, written: bool,
                          s2: bool, r2: bool)
    requires SelectAccesses(g, channel, s1, r1)
             + OffsetAccesses(g, PackOffset(channel, v), statusOk, busy, written)
             + SelectAccesses(g, channel, s2, r2) == RoundTripTrace(g, channel, v)
    ensures s1 && r1 && statusOk && !busy && written && s2 && r2
  {
    var t := RoundTripTrace(g, channel, v);
    assert |t| == 6;
    assert t[1] == ReadAccess(g.offset, true) && t[3].ok && t[5].ok;
  }

  /** The register files `m` and `m'` agree everywhere except possibly at `x` and `y`. */
  predicate AgreeOutside(m: map<Address, Word>, m': map<Address, Word>, x: Address, y: Address)
  {
    forall a: Address :: a != x && a != y ==> Lookup(m, a) == Lookup(m', a)
  }

  /** A write to `x` or `y` that may or may not have happened leaves the rest alone. */
  lemma MaybeWriteAgrees(m: map<Address, Word>, m': map<Address, Word>, k: Address, v: Word,
                         done: bool, x: Address, y: Address)
    requires k == x || k == y
    requires m' == if done then m[k := v] else m
    ensures AgreeOutside(m, m', x, y)
  {
  }

  /** Agreement outside `x` and `y` composes. */
  lemma AgreeOutsideTrans(m0: map<Address, Word>, m1: map<Address, Word>, m2: map<Address, Word>,
                          x: Address, y: Address)
    requires AgreeOutside(m0, m1, x, y) && AgreeOutside(m1, m2, x, y)
    ensures AgreeOutside(m0, m2, x, y)
  {
  }

  /** Writing the select latch again with the value it already holds changes nothing. */
  lemma SelectAgain(m: map<Address, Word>, sel: Address, off: Address, c: Word, w: Word)
    requires sel != off
    ensures m[sel := c][off := w][sel := c] == m[sel := c][off := w]
  {
  }

  /** A trace that grew by `a`, `b` and `c` in turn and equals `t0 + rt` grew by `rt`. */
  lemma TraceSuffix(t0: seq<Access>, a: seq<Access>, b: seq<Access>, c: seq<Access>, rt: seq<Access>)
    requires t0 + a + b + c == t0 + rt
    ensures a + b + c == rt
  {
    assert (t0 + a + b + c)[|t0|..] == a + b + c;
    assert (t0 + rt)[|t0|..] == rt;
  }

  /** Reading a channel's offset, writing that value back and reading it again gives the
      value first read, whenever every call on the way succeeded. Only the low 16 bits
      survive: the offset register ends holding the offset read with the channel number
      in its upper half, and the select latch holds the channel. Whatever the outcomes,
      no other register changes. */
  method RestoreOffset(d: Digitizer, group: Byte, channel: Byte) returns (before: Word, after: Word)
    requires ValidTarget(group, channel)
    modifies d
    ensures AgreeOutside(old(d.regs), d.regs, GroupRegisters(group).select, GroupRegisters(group).offset)
    ensures d.Trace == old(d.Trace) + RoundTripTrace(GroupRegisters(group), channel, before) ==>
              && after == before
              && before == Lookup(old(d.regs), GroupRegisters(group).offset) & 0xFFFF
              && d.regs == old(d.regs)[GroupRegisters(group).select := channel as Word]
                                      [GroupRegisters(group).offset := PackOffset(channel, before)]
  {
    ghost var g := GroupRegisters(group);
    ghost var t0 := d.Trace;
    ghost var m0 := d.regs;
    ghost var s1, r1, s2, r2;
    before, s1, r1 := ChannelOffset(d, group, channel);
    ghost var m1 := d.regs;
    MaybeWriteAgrees(m0, m1, g.select, channel as Word, s1, g.select, g.offset);
    ghost var busy := Busy(Lookup(d.regs, g.status));
    var written, statusOk := WriteDCOffset(d, group, channel, before);
    ghost var m2 := d.regs;
    MaybeWriteAgrees(m1, m2, g.offset, PackOffset(channel, before), written, g.select, g.offset);
    after, s2, r2 := ChannelOffset(d, group, channel);
    MaybeWriteAgrees(m2, d.regs, g.select, channel as Word, s2, g.select, g.offset);
    AgreeOutsideTrans(m0, m1, m2, g.select, g.offset);
    AgreeOutsideTrans(m0, m2, d.regs, g.select, g.offset);
    ghost var rt := RoundTripTrace(g, channel, before);
    if d.Trace == t0 + rt {
      TraceSuffix(t0, SelectAccesses(g, channel, s1, r1),
                  OffsetAccesses(g, PackOffset(channel, before), statusOk, busy, written),
                  SelectAccesses(g, channel, s2, r2), rt);
      RoundTripOutcomes(g, channel, before, s1, r1, statusOk, busy, written, s2, r2);
      SelectAgain(m0, g.select, g.offset, channel as Word, PackOffset(channel, before));
    }
  }
}
