/** Slot addressing: the configuration the WL_AT24CX constructor derives, the
    mapping between slot indices (`taddr`) and byte addresses, and circular
    stepping around the ring of `num_of_data` slots. */
module Layouts {
  import opened Words
  import opened Codec

  /** The configuration fields of a WL_AT24CX object. None of them changes
      after construction. `dataSize` stands for sizeof(data_t) and
      `wlDataSize` for sizeof(wl_data_t<data_t>). */
  datatype Layout = Layout(
    eepromSize: u32,
    baseAddr: u32,
    endAddr: u32,
    numOfData: u32,
    baseTAddr: u32,
    endTAddr: u32,
    dataSize: u32,
    wlDataSize: u32,
    wlEnable: bool)
  {
    /** The two sizes the address arithmetic divides by. */
    predicate Sized()
    {
      dataSize >= 1 && wlDataSize == dataSize + Overhead
    }

    /** A layout the constructor can produce. */
    predicate Valid()
    {
      Sized() && this == NewLayout(baseAddr, numOfData, wlEnable, eepromSize, dataSize)
    }

    /** The ring bounds a valid layout with at least one slot has: the scan
        starts at slot 0 and the ring ends at num_of_data - 1. */
    predicate Ring()
    {
      numOfData > 0 && baseTAddr == 0 && endTAddr == numOfData - 1
    }

    /** The stride between slots: a packed record with wear levelling, a bare
        payload without. */
    function RecordSize(): (rs: u32)
      requires Sized()
      ensures rs >= 1
    {
      if wlEnable then wlDataSize else dataSize
    }

    /** taddr_to_addr (WL_AT24CX.h:357-367): the multiplication and the
        addition each wrap in uint32_t, which is the same as wrapping the
        exact address once. */
    function TAddrToAddr(taddr: u32): (addr: u32)
      requires Sized()
      ensures addr == (baseAddr + taddr * RecordSize()) % U32
    {
      WrapTwice(taddr * RecordSize(), baseAddr);
      Wrap(Wrap(taddr * RecordSize()) + baseAddr)
    }

    /** addr_to_taddr (WL_AT24CX.h:369-377): the slot whose record covers
        the distance from base_addr to addr, measured in uint32_t. The base
        address itself is slot 0. */
    function AddrToTAddr(addr: u32): (taddr: u32)
      requires Sized()
      ensures taddr * RecordSize() <= Wrap(addr - baseAddr) < taddr * RecordSize() + RecordSize()
      ensures addr == baseAddr ==> taddr == 0
    {
      Div(Wrap(addr - baseAddr), RecordSize())
    }

    /** taddr_step (WL_AT24CX.h:406-419): one slot forward or backward. A
        forward step lands inside the ring from any index; a backward step
        does too from any slot up to num_of_data. */
    function TAddrStep(taddr: u32, forward: bool): (t: u32)
      requires numOfData > 0
      ensures forward ==> t < numOfData
      ensures !forward && Ring() && taddr <= numOfData ==> t < numOfData
    {
      if forward then Wrap(taddr + 1) % numOfData
      else if taddr == 0 then endTAddr
      else taddr - 1
    }
  }

  /** The address math of the constructor (WL_AT24CX.h:46-69). `base_taddr`
      is computed by addr_to_taddr(base_addr), which subtracts the base
      address from itself, so it is always 0. */
  function NewLayout(baseAddr: u32, numOfData: u32, wlEn: bool, eepromSize: u32, dataSize: u32): (L: Layout)
    requires dataSize >= 1 && dataSize + Overhead < U32
    ensures L.Sized()
    ensures L.baseAddr == baseAddr && L.numOfData == numOfData && L.wlEnable == wlEn
    ensures L.eepromSize == eepromSize && L.dataSize == dataSize
    ensures L.wlDataSize == dataSize + Overhead
    ensures L.baseTAddr == 0
    ensures numOfData > 0 ==> L.endTAddr == numOfData - 1
    ensures numOfData == 0 ==> L.endTAddr == U32 - 1
    ensures L.endAddr == Wrap(baseAddr + Wrap(L.RecordSize() * numOfData))
  {
    var wlDataSize := dataSize + Overhead;
    var recordSize := if wlEn then wlDataSize else dataSize;
    var endAddr := Wrap(baseAddr + Wrap(recordSize * numOfData));
    var L0 := Layout(eepromSize, baseAddr, endAddr, numOfData, 0, Wrap(numOfData - 1),
                     dataSize, wlDataSize, wlEn);
    assert L0.RecordSize() == recordSize;
    assert L0.AddrToTAddr(baseAddr) == 0;
    L0.(baseTAddr := L0.AddrToTAddr(baseAddr))
  }

  /** Wrapping after each of two additions is wrapping once. */
  lemma WrapTwice(x: nat, b: u32)
    ensures Wrap(Wrap(x) + b) == (b + x) % U32
  {
    var q := x / U32;
    assert x == q * U32 + Wrap(x);
    if Wrap(x) + b < U32 {
      ModShift(b + x, q, Wrap(x) + b);
    } else {
      ModShift(b + x, q + 1, Wrap(x) + b - U32);
    }
  }

  /** x % 2^32 == r when x = q * 2^32 + r with 0 <= r < 2^32. */
  lemma ModShift(x: int, q: int, r: int)
    requires 0 <= r < U32 && x == q * U32 + r
    ensures x % U32 == r
  {
  }

  /** Unsigned division: the quotient brackets the dividend between two
      multiples of the divisor. */
  function Div(d: nat, rs: nat): (q: nat)
    requires rs >= 1
    ensures q * rs <= d < q * rs + rs && q <= d
  {
    MulLe(1, rs, d / rs);
    d / rs
  }

  /** Without 32-bit overflow, get_end_addr() is the base address plus
      num_of_data record sizes: the first address past the ring, where a
      chained store can start. */
  lemma EndAddrExact(baseAddr: u32, numOfData: u32, wlEn: bool, eepromSize: u32, dataSize: u32)
    requires dataSize >= 1 && dataSize + Overhead < U32
    requires var L := NewLayout(baseAddr, numOfData, wlEn, eepromSize, dataSize);
      baseAddr + L.RecordSize() * numOfData < U32
    ensures var L := NewLayout(baseAddr, numOfData, wlEn, eepromSize, dataSize);
      L.endAddr == baseAddr + L.RecordSize() * numOfData
  {
    var L := NewLayout(baseAddr, numOfData, wlEn, eepromSize, dataSize);
    WrapSum(L.RecordSize(), numOfData, baseAddr);
  }

  /** What the constructor produces is a valid layout. */
  lemma NewLayoutValid(baseAddr: u32, numOfData: u32, wlEn: bool, eepromSize: u32, dataSize: u32)
    requires dataSize >= 1 && dataSize + Overhead < U32
    ensures NewLayout(baseAddr, numOfData, wlEn, eepromSize, dataSize).Valid()
  {
  }

  /** Without 32-bit overflow, slot `taddr` starts taddr record sizes past
      the base address. */
  lemma TAddrToAddrExact(L: Layout, taddr: u32)
    requires L.Sized() && taddr * L.RecordSize() + L.baseAddr < U32
    ensures L.TAddrToAddr(taddr) == L.baseAddr + taddr * L.RecordSize()
  {
    WrapSum(taddr, L.RecordSize(), L.baseAddr);
  }

  /** A product and a sum that stay below 2^32 do not wrap. */
  lemma WrapSum(x: nat, y: nat, b: u32)
    requires x * y + b < U32
    ensures Wrap(Wrap(x * y) + b) == x * y + b
  {
    var p: nat := x * y;
    assert Wrap(p) == p;
  }

  /** addr_to_taddr undoes taddr_to_addr exactly when the slot offset
      taddr * record size does not overflow 32 bits (the base address may
      wrap, the subtraction undoes that). */
  lemma AddrRoundTrip(L: Layout, taddr: u32)
    requires L.Sized()
    ensures L.AddrToTAddr(L.TAddrToAddr(taddr)) == taddr <==> taddr * L.RecordSize() < U32
  {
    var rs := L.RecordSize();
    var w := Wrap(taddr * rs);
    WrapAddSub(w, L.baseAddr);
    RoundTripWord(taddr, rs, taddr * rs, w);
  }

  lemma WrapAddSub(w: u32, b: u32)
    ensures Wrap(Wrap(w + b) - b) == w
  {
  }

  /** Dividing the 32-bit image of taddr * rs by rs gives taddr back exactly
      when the product did not wrap. */
  lemma RoundTripWord(taddr: nat, rs: nat, x: nat, w: u32)
    requires rs >= 1 && x == taddr * rs && w == Wrap(x)
    ensures w / rs == taddr <==> x < U32
  {
    if x < U32 {
      DivMulCancel(taddr, rs);
    } else {
      DivBelow(w, rs, taddr);
    }
  }

  lemma DivMulCancel(a: nat, b: nat)
    requires b >= 1
    ensures (a * b) / b == a
  {
    var q, r := (a * b) / b, (a * b) % b;
    assert q * b + r == a * b && 0 <= r < b;
    if q < a {
      MulLe(q + 1, a, b);
    } else if q > a {
      MulLe(a + 1, q, b);
    }
  }

  lemma DivBelow(w: nat, b: nat, t: nat)
    requires b >= 1 && w < t * b
    ensures w / b < t
  {
    var q := w / b;
    assert q * b <= w;
    if q >= t {
      MulLe(t, q, b);
    }
  }

  lemma MulLe(x: int, y: int, b: nat)
    requires x <= y
    ensures x * b <= y * b
  {
    assert y * b - x * b == (y - x) * b;
  }

  /** A layout the constructor produces with at least one slot is a ring
      the scans can walk. */
  lemma ValidRing(L: Layout)
    requires L.Valid() && L.numOfData > 0
    ensures L.Ring()
  {
  }

  /** Stepping stays inside the ring: forward wraps from the last slot to
      slot 0, backward wraps from slot 0 to end_taddr = num_of_data - 1. */
  lemma StepInRing(L: Layout, taddr: u32)
    requires L.Ring() && taddr < L.numOfData
    ensures L.TAddrStep(taddr, true) == if taddr + 1 == L.numOfData then 0 else taddr + 1
    ensures L.TAddrStep(taddr, false) == if taddr == 0 then L.numOfData - 1 else taddr - 1
  {
    var n := L.numOfData;
    assert Wrap(taddr + 1) == taddr + 1;
    if taddr + 1 == n {
      ModSelf(n);
    } else {
      ModSmall(taddr + 1, n);
    }
  }

  lemma MulSucc(x: nat, y: nat)
    ensures (x + 1) * y == x * y + y
  {
  }

  lemma ModSmall(x: int, n: int)
    requires 0 <= x < n
    ensures x % n == x
  {
  }

  lemma ModSelf(n: int)
    requires n > 0
    ensures n % n == 0
  {
  }

  /** For a slot inside the ring, one step backward and one step forward
      cancel, in either order. */
  lemma StepInverse(L: Layout, taddr: u32)
    requires L.Ring() && taddr < L.numOfData
    ensures L.TAddrStep(L.TAddrStep(taddr, false), true) == taddr
    ensures L.TAddrStep(L.TAddrStep(taddr, true), false) == taddr
  {
    StepInRing(L, taddr);
    StepInRing(L, L.TAddrStep(taddr, false));
    StepInRing(L, L.TAddrStep(taddr, true));
  }

}
