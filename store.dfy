/** The WL_AT24CX object: its configuration, the EEPROM it drives, and the
    three fields the wear-levelling methods update (taddr_current,
    taddr_last, wl_ptr_current). The EEPROM is an array of bytes; the AT24CX
    `read` and `write` calls become slicing and `Write` below. */
module Store {
  import opened Words
  import opened Codec
  import opened Layouts
  import opened Medium
  import opened Recovery

  class WlAt24cx {
    /** The configuration the constructor derives; it never changes. */
    const layout: Layout
    /** The EEPROM, from address 0. */
    const mem: array<Byte>

    /** The slot the next push goes to (the head). */
    var taddrCurrent: u32
    /** The slot of the last record pushed or recovered. */
    var taddrLast: u32
    /** The sequence number the next push stores. */
    var wlPtrCurrent: u32

    /** WL_AT24CX(...) (WL_AT24CX.h:46-69). The head, last slot and sequence
        number are left as the C++ object leaves them: unset until wl_init,
        wl_init2 or a push. */
    constructor (baseAddr: u32, numOfData: u32, wlEn: bool, eepromSize: u32, dataSize: u32, mem: array<Byte>)
      requires dataSize >= 1 && dataSize + Overhead < U32
      ensures layout == NewLayout(baseAddr, numOfData, wlEn, eepromSize, dataSize)
      ensures layout.Valid()
      ensures numOfData > 0 ==> layout.Ring()
      ensures this.mem == mem
    {
      layout := NewLayout(baseAddr, numOfData, wlEn, eepromSize, dataSize);
      this.mem := mem;
      NewLayoutValid(baseAddr, numOfData, wlEn, eepromSize, dataSize);
      if numOfData > 0 {
        ValidRing(NewLayout(baseAddr, numOfData, wlEn, eepromSize, dataSize));
      }
    }

    /** get_end_addr (WL_AT24CX.h:281-284): without 32-bit overflow, the
        first address past the ring, where a next store can start. */
    function GetEndAddr(): (e: u32)
      requires layout.Valid()
      ensures layout.baseAddr + layout.RecordSize() * layout.numOfData < U32 ==>
        e == layout.baseAddr + layout.RecordSize() * layout.numOfData
    {
      var L := layout;
      if L.baseAddr + L.RecordSize() * L.numOfData < U32 then
        EndAddrExact(L.baseAddr, L.numOfData, L.wlEnable, L.eepromSize, L.dataSize);
        L.endAddr
      else L.endAddr
    }

    // -------------------------------------------------------------------
    // Reading and writing the EEPROM

    /** The AT24CX write: `bytes` stored from address `addr` on. */
    method Write(addr: nat, bytes: seq<Byte>)
      requires addr + |bytes| <= mem.Length
      modifies mem
      ensures mem[..] == Overwrite(old(mem[..]), addr, bytes)
    {
      forall i | 0 <= i < |bytes| {
        mem[addr + i] := bytes[i];
      }
      assert mem[..] == Overwrite(old(mem[..]), addr, bytes);
    }

    /** calc_crc (WL_AT24CX.h:385-398): the XOR of the payload bytes,
        accumulated byte by byte. */
    method ComputeCrc(data: seq<Byte>) returns (output: Byte)
      ensures output == CalcCrc(data)
    {
      output := 0;
      for i := 0 to |data|
        invariant output == CalcCrc(data[..i])
      {
        assert data[..i + 1][..i] == data[..i];
        output := output ^ data[i];
      }
      assert data[..|data|] == data;
    }

    /** isdatavalid (WL_AT24CX.h:428-435): the stored checksum is the one
        calc_crc computes for the stored payload. */
    method DataIsValid(input: WlData) returns (isValid: bool)
      ensures isValid <==> IsDataValid(input)
    {
      var crc := ComputeCrc(input.data);
      isValid := input.crc == crc;
    }

    /** wl_peek (WL_AT24CX.h:324-331): the record at slot `taddr`. */
    method WlPeek(taddr: u32) returns (out: WlData)
      requires layout.Sized() && layout.TAddrToAddr(taddr) + layout.wlDataSize <= mem.Length
      ensures out == PeekAt(layout, mem[..], taddr)
    {
      var addr := layout.TAddrToAddr(taddr);
      out := Decode(mem[addr..addr + layout.wlDataSize], layout.dataSize);
    }

    /** wl_peek of a slot the scans reach: the record `recs` holds for it. */
    method PeekSlot(taddr: u32, ghost recs: seq<WlData>) returns (out: WlData)
      requires ReadsAs(layout, mem[..], recs) && taddr <= layout.numOfData
      ensures out == recs[taddr]
    {
      SlotAddr(layout, mem.Length, layout.numOfData + 1, taddr);
      out := WlPeek(taddr);
    }

    /** read_mem (WL_AT24CX.h:268-273): the bare payload at slot
        `taddr mod num_of_data`. */
    method ReadMem(taddr: u32) returns (out: seq<Byte>)
      requires layout.Sized() && layout.numOfData > 0
      requires layout.TAddrToAddr(taddr % layout.numOfData) + layout.dataSize <= mem.Length
      ensures out == ReadMemAt(layout, mem[..], taddr)
    {
      var addr := layout.TAddrToAddr(taddr % layout.numOfData);
      out := mem[addr..addr + layout.dataSize];
    }

    /** write_mem (WL_AT24CX.h:254-260): the bare payload stored at slot
        `taddr mod num_of_data`. */
    method WriteMem(taddr: u32, data: seq<Byte>)
      requires layout.Sized() && layout.numOfData > 0 && |data| == layout.dataSize
      requires layout.TAddrToAddr(taddr % layout.numOfData) + layout.dataSize <= mem.Length
      modifies mem
      ensures mem[..] == WriteMemAt(layout, old(mem[..]), taddr, data)
    {
      var addr := layout.TAddrToAddr(taddr % layout.numOfData);
      Write(addr, data);
    }

    /** wl_get_last_data (WL_AT24CX.h:310-316): the payload of the last
        record. */
    method WlGetLastData() returns (out: seq<Byte>)
      requires layout.Sized() && layout.TAddrToAddr(taddrLast) + layout.wlDataSize <= mem.Length
      ensures out == PeekAt(layout, mem[..], taddrLast).data
    {
      var last := WlPeek(taddrLast);
      out := last.data;
    }

    // -------------------------------------------------------------------
    // Wear levelling

    /** wl_push (WL_AT24CX.h:230-246): store `data` with the current
        sequence number at the head, then advance the sequence number (in
        uint32_t arithmetic) and the head. */
    method WlPush(data: seq<Byte>)
      requires layout.wlEnable && layout.Sized() && layout.numOfData > 0 && |data| == layout.dataSize
      requires layout.TAddrToAddr(taddrCurrent) + layout.wlDataSize <= mem.Length
      modifies this, mem
      ensures mem[..] == PushAt(layout, old(mem[..]), old(taddrCurrent), old(wlPtrCurrent), data)
      ensures wlPtrCurrent == Wrap(old(wlPtrCurrent) + 1)
      ensures taddrLast == old(taddrCurrent)
      ensures taddrCurrent == layout.TAddrStep(old(taddrCurrent), true)
    {
      var crc := ComputeCrc(data);
      var buffer := WlData(data, wlPtrCurrent, crc);
      var addr := layout.TAddrToAddr(taddrCurrent);
      Write(addr, Encode(buffer));
      wlPtrCurrent := Wrap(wlPtrCurrent + 1);
      taddrLast := taddrCurrent;
      taddrCurrent := Wrap(taddrCurrent + 1) % layout.numOfData;
    }

    /** wl_init (WL_AT24CX.h:75-132). Returns the outcome, `Halted` when
        one of its asserts fires; when it resolves, the three fields hold
        what it resolved to. */
    method WlInit() returns (outcome: Outcome)
      requires ScanFits(layout, mem[..])
      modifies this
      ensures outcome == Init1(layout, mem[..])
      ensures outcome.Resolved? ==>
        taddrLast == outcome.last && taddrCurrent == outcome.head && wlPtrCurrent == outcome.ptr
    {
      ghost var recs := Records(layout, mem[..]);
      RecordsReadAs(layout, mem[..]);
      var found, taddr, current, nextPtr := FindChainBreak(recs);
      if !found {
        return Halted;
      }
      outcome := WlInitRetreat(taddr, current, nextPtr, recs);
    }

    /** The outer loop of wl_init (WL_AT24CX.h:82-127): the first slot whose
        successor holds the sentinel or a sequence number that does not
        follow, with the record there and its successor's sequence number.
        When there is none, wl_init reaches its final assert. */
    method FindChainBreak(ghost recs: seq<WlData>)
      returns (found: bool, taddr: u32, current: WlData, nextPtr: u32)
      requires ReadsAs(layout, mem[..], recs)
      ensures found ==> taddr < layout.numOfData && current == recs[taddr] && nextPtr == recs[taddr + 1].ptr
      ensures found ==> Init1Of(layout, recs) == Init1Retreat(layout, recs, taddr, nextPtr, 0)
      ensures !found ==> Init1Of(layout, recs) == Halted
    {
      var n := layout.numOfData;
      taddr := layout.baseTAddr;
      while taddr <= layout.endTAddr
        invariant taddr <= n
        invariant Init1Scan(layout, recs, taddr) == Init1Of(layout, recs)
        decreases n - taddr
      {
        current := PeekSlot(taddr, recs);
        var next := PeekSlot(taddr + 1, recs);
        if Wrap(next.ptr - current.ptr) != 1 || next.ptr == PointerMax {
          return true, taddr, current, next.ptr;
        }
        taddr := taddr + 1;
      }
      return false, taddr, WlData([], 0, 0), 0;
    }

    /** The inner loop of wl_init, from the slot where the break was found:
        the wiped-memory test, then a step back for every failed checksum,
        at most num_of_data - 1 of them. */
    method WlInitRetreat(taddr0: u32, current0: WlData, nextPtr: u32, ghost recs: seq<WlData>)
      returns (outcome: Outcome)
      requires ReadsAs(layout, mem[..], recs) && taddr0 < layout.numOfData
      requires current0 == recs[taddr0]
      modifies this
      ensures outcome == Init1Retreat(layout, recs, taddr0, nextPtr, 0)
      ensures outcome.Resolved? ==>
        taddrLast == outcome.last && taddrCurrent == outcome.head && wlPtrCurrent == outcome.ptr
    {
      var n := layout.numOfData;
      var taddr: u32, current: WlData := taddr0, current0;
      var checkAttempt: nat := 0;
      while true
        invariant taddr < n && checkAttempt < n
        invariant current == recs[taddr]
        invariant Init1Retreat(layout, recs, taddr, nextPtr, checkAttempt)
               == Init1Retreat(layout, recs, taddr0, nextPtr, 0)
        decreases n - checkAttempt
      {
        if taddr == 0 && nextPtr == PointerMax {
          taddrCurrent, taddrLast, wlPtrCurrent := 0, 0, 0;
          return Reset;
        }
        var isValid := DataIsValid(current);
        if !isValid {
          taddr := if taddr == 0 then layout.endTAddr else taddr - 1;
          current := PeekSlot(taddr, recs);
        } else {
          taddrCurrent := Wrap(taddr + 1) % n;
          taddrLast := taddr;
          wlPtrCurrent := Wrap(current.ptr + 1);
          return Resolved(taddrLast, taddrCurrent, wlPtrCurrent);
        }
        checkAttempt := checkAttempt + 1;
        if checkAttempt >= n {
          return Halted;
        }
      }
    }

    /** wl_init2 (WL_AT24CX.h:134-222). Returns the outcome, `Halted` when
        its assert fires; when it resolves, the three fields hold what it
        resolved to. */
    method WlInit2() returns (outcome: Outcome)
      requires ScanFits(layout, mem[..])
      modifies this
      ensures outcome == Init2(layout, mem[..])
      ensures outcome.Resolved? ==>
        taddrLast == outcome.last && taddrCurrent == outcome.head && wlPtrCurrent == outcome.ptr
    {
      ghost var recs := Records(layout, mem[..]);
      RecordsReadAs(layout, mem[..]);
      var stop := FindBreak(false, recs);
      match stop
      case WipeFound =>
        taddrLast, taddrCurrent, wlPtrCurrent := 0, 0, 0;
        return Reset;
      case StopAt(dataChecked) =>
        outcome := RetreatFrom(dataChecked, dataChecked as nat, recs);
    }

    /** The scan as evidently intended: the forward search compares the last
        slot with slot 0 instead of reading past the ring, and the backward
        search may visit every slot once. */
    method WlRecover() returns (outcome: Outcome)
      requires ScanFits(layout, mem[..])
      modifies this
      ensures outcome == RecoverFixed(layout, mem[..])
      ensures outcome.Resolved? ==>
        taddrLast == outcome.last && taddrCurrent == outcome.head && wlPtrCurrent == outcome.ptr
    {
      ghost var recs := Records(layout, mem[..]);
      RecordsReadAs(layout, mem[..]);
      var stop := FindBreak(true, recs);
      match stop
      case WipeFound =>
        taddrLast, taddrCurrent, wlPtrCurrent := 0, 0, 0;
        return Reset;
      case StopAt(t) =>
        if t < layout.numOfData {
          outcome := RetreatFrom(t, layout.numOfData as nat - 1, recs);
        } else {
          return Halted;
        }
    }

    /** The first loop of wl_init2 (WL_AT24CX.h:143-187): walk forward from
        slot 0 to the first slot whose successor holds the sentinel or a
        sequence number that does not follow. `circular` compares the last
        slot with slot 0 rather than with the slot past the ring. */
    method FindBreak(circular: bool, ghost recs: seq<WlData>) returns (stop: Stop)
      requires ReadsAs(layout, mem[..], recs)
      ensures stop == Find(layout, recs, circular, layout.baseTAddr)
    {
      var n := layout.numOfData;
      var taddr: u32 := layout.baseTAddr;
      while taddr <= layout.endTAddr
        invariant taddr <= n
        invariant Find(layout, recs, circular, taddr) == Find(layout, recs, circular, layout.baseTAddr)
        decreases n - taddr
      {
        var current := PeekSlot(taddr, recs);
        var next := PeekSlot(NextSlot(layout, taddr, circular), recs);
        var ptrBreakFound := Wrap(next.ptr - current.ptr) != 1;
        var maxIntFound := next.ptr == PointerMax;
        if maxIntFound {
          if current.ptr == PointerMax {
            return WipeFound;
          }
          return StopAt(taddr);
        }
        if ptrBreakFound {
          return StopAt(taddr);
        }
        taddr := taddr + 1;
      }
      return StopAt(taddr);
    }

    /** The do-while loop of wl_init2 (WL_AT24CX.h:189-219): step back from
        `start` while the checksum fails; the assert fires once more than
        `limit` steps were needed. */
    method RetreatFrom(start: u32, limit: nat, ghost recs: seq<WlData>) returns (outcome: Outcome)
      requires ReadsAs(layout, mem[..], recs) && start <= layout.numOfData
      modifies this
      ensures outcome == Retreat(layout, recs, start, 0, limit)
      ensures outcome.Resolved? ==>
        taddrLast == outcome.last && taddrCurrent == outcome.head && wlPtrCurrent == outcome.ptr
    {
      var taddr: u32 := start;
      var checkAttempt: nat := 0;
      while true
        invariant taddr <= layout.numOfData && checkAttempt <= limit
        invariant Retreat(layout, recs, taddr, checkAttempt, limit)
               == Retreat(layout, recs, start, 0, limit)
        decreases limit - checkAttempt
      {
        var current := PeekSlot(taddr, recs);
        var isValid := DataIsValid(current);
        if !isValid {
          taddr := layout.TAddrStep(taddr, false);
          checkAttempt := checkAttempt + 1;
        } else {
          taddrLast := taddr;
          taddrCurrent := layout.TAddrStep(taddr, true);
          wlPtrCurrent := Wrap(current.ptr + 1);
          return Resolved(taddrLast, taddrCurrent, wlPtrCurrent);
        }
        if checkAttempt > limit {
          return Halted;
        }
      }
    }

    // -------------------------------------------------------------------
    // Erase

    /** wipe(size) (WL_AT24CX.h:292-299): 0xFF written in 8-byte chunks from
        address 0 while the chunk start, a signed int, is below `size`. The
        counter must not overflow, and every chunk must lie on the EEPROM. */
    method Wipe(size: u32)
      requires WipeEnd(size) < 0x8000_0000 && WipeEnd(size) <= mem.Length
      modifies mem
      ensures mem[..] == WipeAt(old(mem[..]), size)
    {
      var chunk := seq(8, _ => ErasedByte);
      var i: int := 0;
      while i < size
        invariant 0 <= i <= WipeEnd(size) && i % 8 == 0
        invariant forall j :: 0 <= j < i ==> mem[j] == ErasedByte
        invariant forall j :: i <= j < mem.Length ==> mem[j] == old(mem[j])
        decreases size - i
      {
        Write(i, chunk);
        i := i + 8;
      }
      assert i == WipeEnd(size);
      assert mem[..] == WipeAt(old(mem[..]), size);
    }

    /** wipe() (WL_AT24CX.h:300-303): wipe(eeprom_size). */
    method WipeAll()
      requires WipeEnd(layout.eepromSize) < 0x8000_0000 && WipeEnd(layout.eepromSize) <= mem.Length
      modifies mem
      ensures mem[..] == WipeAt(old(mem[..]), layout.eepromSize)
    {
      Wipe(layout.eepromSize);
    }
  }
}
