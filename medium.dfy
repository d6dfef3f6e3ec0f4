/** The EEPROM seen as a sequence of bytes, and what the store reads from and
    writes to it. The AT24CX driver's `read` and `write` become slicing and
    `Overwrite`; its I2C framing and page chunking are not part of this model. */
module Medium {
  import opened Words
  import opened Codec
  import opened Layouts

  /** The medium after `bytes` have been written starting at address `at`. */
  function Overwrite(m: seq<Byte>, at: nat, bytes: seq<Byte>): (m': seq<Byte>)
    requires at + |bytes| <= |m|
    ensures |m'| == |m|
    ensures m'[at..at + |bytes|] == bytes
    ensures forall i :: 0 <= i < |m| && !(at <= i < at + |bytes|) ==> m'[i] == m[i]
  {
    m[..at] + bytes + m[at + |bytes|..]
  }

  /** Reading a range that a write did not touch gives the old bytes. */
  lemma OverwriteElsewhere(m: seq<Byte>, at: nat, bytes: seq<Byte>, from: nat, len: nat)
    requires at + |bytes| <= |m| && from + len <= |m|
    requires from + len <= at || at + |bytes| <= from
    ensures Overwrite(m, at, bytes)[from..from + len] == m[from..from + len]
  {
  }

  // ---------------------------------------------------------------------
  // Slots on the medium

  /** The first `slots` slots of the layout lie on a medium of `len` bytes,
      and every address involved is below 2^32. */
  predicate Fits(L: Layout, len: nat, slots: nat)
  {
    L.Sized() && L.baseAddr + slots * L.RecordSize() <= len <= U32
  }

  lemma SlotAddr(L: Layout, len: nat, slots: nat, taddr: u32)
    requires Fits(L, len, slots) && taddr < slots
    ensures L.TAddrToAddr(taddr) == L.baseAddr + taddr * L.RecordSize()
    ensures L.TAddrToAddr(taddr) + L.RecordSize() <= len
  {
    MulLe(taddr + 1, slots, L.RecordSize());
    MulSucc(taddr, L.RecordSize());
    TAddrToAddrExact(L, taddr);
  }

  /** Distinct slots occupy disjoint byte ranges. */
  lemma SlotsApart(L: Layout, len: nat, slots: nat, s: u32, t: u32)
    requires Fits(L, len, slots) && s < t < slots
    ensures L.TAddrToAddr(s) + L.RecordSize() <= L.TAddrToAddr(t)
  {
    SlotAddr(L, len, slots, s);
    SlotAddr(L, len, slots, t);
    MulLe(s + 1, t, L.RecordSize());
    MulSucc(s, L.RecordSize());
  }

  lemma SlotsDisjoint(L: Layout, len: nat, slots: nat, s: u32, t: u32)
    requires Fits(L, len, slots) && s < slots && t < slots && s != t
    ensures L.TAddrToAddr(s) + L.RecordSize() <= L.TAddrToAddr(t) ||
            L.TAddrToAddr(t) + L.RecordSize() <= L.TAddrToAddr(s)
    ensures L.TAddrToAddr(s) + L.RecordSize() <= len && L.TAddrToAddr(t) + L.RecordSize() <= len
  {
    SlotAddr(L, len, slots, s);
    SlotAddr(L, len, slots, t);
    if s < t {
      SlotsApart(L, len, slots, s, t);
    } else {
      SlotsApart(L, len, slots, t, s);
    }
  }

  /** wl_peek: the record stored at slot `taddr` (WL_AT24CX.h:324-331). It
      reads sizeof(wl_data_t) bytes whatever the stride. */
  function PeekAt(L: Layout, m: seq<Byte>, taddr: u32): (r: WlData)
    requires L.Sized() && L.TAddrToAddr(taddr) + L.wlDataSize <= |m|
    ensures |r.data| == L.dataSize
    ensures Encode(r) == m[L.TAddrToAddr(taddr)..L.TAddrToAddr(taddr) + L.wlDataSize]
  {
    var a := L.TAddrToAddr(taddr);
    Decode(m[a..a + L.wlDataSize], L.dataSize)
  }

  /** read_mem: the payload at slot `taddr mod num_of_data`
      (WL_AT24CX.h:268-273). */
  function ReadMemAt(L: Layout, m: seq<Byte>, taddr: u32): (v: seq<Byte>)
    requires L.Sized() && L.numOfData > 0
    requires L.TAddrToAddr(taddr % L.numOfData) + L.dataSize <= |m|
    ensures |v| == L.dataSize
  {
    var a := L.TAddrToAddr(taddr % L.numOfData);
    m[a..a + L.dataSize]
  }

  /** write_mem: the medium after `data` is written at slot
      `taddr mod num_of_data` (WL_AT24CX.h:254-260). */
  function WriteMemAt(L: Layout, m: seq<Byte>, taddr: u32, data: seq<Byte>): (m': seq<Byte>)
    requires L.Sized() && L.numOfData > 0 && |data| == L.dataSize
    requires L.TAddrToAddr(taddr % L.numOfData) + L.dataSize <= |m|
    ensures |m'| == |m|
    ensures var a := L.TAddrToAddr(taddr % L.numOfData);
      && m'[a..a + L.dataSize] == data
      && forall i :: 0 <= i < |m| && !(a <= i < a + L.dataSize) ==> m'[i] == m[i]
  {
    Overwrite(m, L.TAddrToAddr(taddr % L.numOfData), data)
  }

  /** The medium after wl_push has written `data` with sequence number `ptr`
      at slot `head` (WL_AT24CX.h:234-241). */
  function PushAt(L: Layout, m: seq<Byte>, head: u32, ptr: u32, data: seq<Byte>): (m': seq<Byte>)
    requires L.Sized() && |data| == L.dataSize
    requires L.TAddrToAddr(head) + L.wlDataSize <= |m|
    ensures |m'| == |m|
    ensures var a := L.TAddrToAddr(head);
      && m'[a..a + L.wlDataSize] == Encode(MakeRecord(data, ptr))
      && forall i :: 0 <= i < |m| && !(a <= i < a + L.wlDataSize) ==> m'[i] == m[i]
  {
    Overwrite(m, L.TAddrToAddr(head), Encode(MakeRecord(data, ptr)))
  }

  /** Round trip: peeking at the slot just pushed gives back the payload, the
      sequence number, and a record whose checksum is valid. */
  lemma PeekPushed(L: Layout, m: seq<Byte>, head: u32, ptr: u32, data: seq<Byte>)
    requires L.Sized() && |data| == L.dataSize
    requires L.TAddrToAddr(head) + L.wlDataSize <= |m|
    ensures PeekAt(L, PushAt(L, m, head, ptr, data), head) == MakeRecord(data, ptr)
    ensures PeekAt(L, PushAt(L, m, head, ptr, data), head).data == data
    ensures IsDataValid(PeekAt(L, PushAt(L, m, head, ptr, data), head))
  {
    DecodeEncode(MakeRecord(data, ptr));
  }

  /** A push leaves every other slot as it was. */
  lemma PeekPushFrame(L: Layout, m: seq<Byte>, slots: nat, head: u32, ptr: u32, data: seq<Byte>, taddr: u32)
    requires L.wlEnable && Fits(L, |m|, slots) && |data| == L.dataSize
    requires head < slots && taddr < slots && taddr != head
    ensures L.TAddrToAddr(head) + L.wlDataSize <= |m| && L.TAddrToAddr(taddr) + L.wlDataSize <= |m|
    ensures PeekAt(L, PushAt(L, m, head, ptr, data), taddr) == PeekAt(L, m, taddr)
  {
    SlotsDisjoint(L, |m|, slots, head, taddr);
    var a: nat, b: nat, w: nat := L.TAddrToAddr(head), L.TAddrToAddr(taddr), L.wlDataSize;
    OverwriteElsewhere(m, a, Encode(MakeRecord(data, ptr)), b, w);
  }

  /** read_mem returns what write_mem stored for any index that is the same
      slot modulo num_of_data. */
  lemma ReadMemAfterWriteMem(L: Layout, m: seq<Byte>, i: u32, j: u32, data: seq<Byte>)
    requires L.Sized() && L.numOfData > 0 && |data| == L.dataSize
    requires L.TAddrToAddr(i % L.numOfData) + L.dataSize <= |m|
    requires i % L.numOfData == j % L.numOfData
    ensures ReadMemAt(L, WriteMemAt(L, m, i, data), j) == data
  {
  }

  /** write_mem leaves the payload of every other slot as it was. */
  lemma ReadMemFrame(L: Layout, m: seq<Byte>, i: u32, j: u32, data: seq<Byte>)
    requires Fits(L, |m|, L.numOfData) && L.numOfData > 0 && |data| == L.dataSize
    requires i % L.numOfData != j % L.numOfData
    ensures L.TAddrToAddr(i % L.numOfData) + L.dataSize <= |m|
    ensures L.TAddrToAddr(j % L.numOfData) + L.dataSize <= |m|
    ensures ReadMemAt(L, WriteMemAt(L, m, i, data), j) == ReadMemAt(L, m, j)
  {
    var n := L.numOfData;
    SlotsDisjoint(L, |m|, n, i % n, j % n);
    OverwriteElsewhere(m, L.TAddrToAddr(i % n), data, L.TAddrToAddr(j % n), L.dataSize);
  }

  // ---------------------------------------------------------------------
  // Erase

  /** The number of bytes wipe(size) overwrites: it writes whole 8-byte
      chunks while the chunk start is below `size`. */
  function WipeEnd(size: nat): (e: nat)
    ensures size <= e < size + 8 && e % 8 == 0
  {
    (size + 7) / 8 * 8
  }

  /** The medium after wipe(size) (WL_AT24CX.h:292-299): every byte from
      address 0 (not the store's base address) up to WipeEnd(size) is 0xFF.
      That is up to 7 bytes beyond `size`, erasing whatever lies there; the
      bytes from WipeEnd(size) on keep their values. */
  function WipeAt(m: seq<Byte>, size: nat): (m': seq<Byte>)
    requires WipeEnd(size) <= |m|
    ensures |m'| == |m|
    ensures forall i :: 0 <= i < size ==> m'[i] == ErasedByte
    ensures forall i :: size <= i < WipeEnd(size) ==> m'[i] == ErasedByte
    ensures forall i :: WipeEnd(size) <= i < |m| ==> m'[i] == m[i]
  {
    seq(|m|, i requires 0 <= i < |m| => if i < WipeEnd(size) then ErasedByte else m[i])
  }

  /** Every slot inside a wiped range reads as erased: sentinel sequence
      number, payload of 0xFF bytes. */
  lemma WipedSlotErased(L: Layout, m: seq<Byte>, size: nat, taddr: u32)
    requires L.Sized() && WipeEnd(size) <= |m|
    requires L.TAddrToAddr(taddr) + L.wlDataSize <= size
    ensures PeekAt(L, WipeAt(m, size), taddr).ptr == PointerMax
    ensures forall i :: 0 <= i < L.dataSize ==> PeekAt(L, WipeAt(m, size), taddr).data[i] == ErasedByte
  {
    var a: nat, w: nat := L.TAddrToAddr(taddr), L.wlDataSize;
    var m' := WipeAt(m, size);
    var erased := seq(L.dataSize + Overhead, _ => ErasedByte);
    WipedBytes(m, size, a, w);
    assert m'[a..a + w] == erased;
    assert PeekAt(L, m', taddr) == Decode(erased, L.dataSize);
    DecodeErased(L.dataSize);
  }

  /** The bytes of any range inside the wiped part are all 0xFF. */
  lemma WipedBytes(m: seq<Byte>, size: nat, a: nat, w: nat)
    requires WipeEnd(size) <= |m| && a + w <= size
    ensures WipeAt(m, size)[a..a + w] == seq(w, _ => ErasedByte)
  {
  }
}
