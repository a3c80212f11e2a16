/** Memory stage: alignment gate, store lanes, load lanes. */
module MemStage {
  import opened Rv64Pkg
  import opened Bits

  /** Data shifted in and out of the byte lanes of a doubleword. */
  function LaneShift(addr: bv64): (s: bv64)
    ensures s <= 56
  {
    (addr & 7) << 3
  }

  function ShiftUp(x: bv64, s: bv64): bv64
    requires s <= 64
  {
    x << s
  }

  function ShiftDown(x: bv64, s: bv64): bv64
    requires s <= 64
  {
    x >> s
  }

  predicate AddrMisaligned(size: bv3, addr: bv64) {
    if size == 1 || size == 5 then addr & 1 != 0
    else if size == 2 || size == 6 then addr & 3 != 0
    else if size == 3 then addr & 7 != 0
    else false
  }

  function StoreData(size: bv3, addr: bv64, rs2: bv64): bv64 {
    if size == 0 then ShiftUp(rs2 & 0xFF, LaneShift(addr))
    else if size == 1 then ShiftUp(rs2 & 0xFFFF, LaneShift(addr))
    else if size == 2 then ShiftUp(rs2 & 0xFFFF_FFFF, LaneShift(addr))
    else if size == 3 then rs2
    else 0
  }

  function WriteStrobe(size: bv3, addr: bv64): bv8 {
    var off := (addr & 7) as bv8;
    if size == 0 then 0x01 << off
    else if size == 1 then 0x03 << off
    else if size == 2 then 0x0F << off
    else if size == 3 then 0xFF
    else 0
  }

  /** Sign or zero extension of the bytes at the bottom of x. */
  function ExtendLoad(size: bv3, x: bv64): bv64 {
    if size == 0 then (if x & 0x80 != 0 then 0xFFFF_FFFF_FFFF_FF00 | (x & 0xFF) else x & 0xFF)
    else if size == 1 then (if x & 0x8000 != 0 then 0xFFFF_FFFF_FFFF_0000 | (x & 0xFFFF) else x & 0xFFFF)
    else if size == 2 then SignExtend32(Low32(x))
    else if size == 3 then x
    else if size == 4 then x & 0xFF
    else if size == 5 then x & 0xFFFF
    else if size == 6 then x & 0xFFFF_FFFF
    else 0
  }

  function LoadData(size: bv3, addr: bv64, rdata: bv64): bv64 {
    ExtendLoad(size, ShiftDown(rdata, LaneShift(addr)))
  }

  predicate LoadMisaligned(c: MemCtrl, addr: bv64) { c.isLoad && AddrMisaligned(c.memSize, addr) }
  predicate StoreMisaligned(c: MemCtrl, addr: bv64) { c.isStore && AddrMisaligned(c.memSize, addr) }

  predicate ReadRequest(c: MemCtrl, addr: bv64) { c.isLoad && !LoadMisaligned(c, addr) }
  predicate WriteRequest(c: MemCtrl, addr: bv64) { c.isStore && !StoreMisaligned(c, addr) }

  /** Write data is zero unless the instruction is a store. */
  function BusWriteData(c: MemCtrl, addr: bv64, rs2: bv64): bv64 {
    if c.isStore then StoreData(c.memSize, addr, rs2) else 0
  }

  /** The memory stage asks for a stall while its request or response is outstanding. */
  predicate StallRequest(c: MemCtrl, reqReady: bool, rspValid: bool) {
    (c.isLoad || c.isStore) && (!reqReady || (c.isLoad && !rspValid))
  }
}
