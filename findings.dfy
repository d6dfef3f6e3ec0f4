/** Three ways the start-up scans of WL_AT24CX.h lose or misplace the last
    record, each shown on the driver's states, next to the corrected scan
    (`RecoverFixed`) recovering the same state. */
module Findings {
  import opened Words
  import opened Codec
  import opened Layouts
  import opened Medium
  import opened Recovery
  import opened History
  import opened RecoveryProofs

  /** F1: wipe the ring, push one record, restart. wl_init takes the erased
      slot after slot 0 for wiped memory and starts over at slot 0 with
      sequence number 0; the record itself still reads back as the last
      data, but the next push lands on slot 0 again (Init1RestartsAtZero).
      wl_init2 and the corrected scan resume after it. */
  lemma Init1ForgetsFirstPush(L: Layout, m: seq<Byte>, size: nat, data: seq<Byte>)
    requires ScanFits(L, m) && WipeEnd(size) <= |m| && |data| == L.dataSize
    requires L.baseAddr + (L.numOfData + 1) * L.RecordSize() <= size
    ensures ScanFits(L, WipeAt(m, size))
    ensures L.TAddrToAddr(0) + L.wlDataSize <= |m|
    ensures ScanFits(L, PushAt(L, WipeAt(m, size), 0, 0, data))
    ensures Init1(L, PushAt(L, WipeAt(m, size), 0, 0, data)) == Reset
    ensures PeekAt(L, PushAt(L, WipeAt(m, size), 0, 0, data), 0).data == data
    ensures Init2(L, PushAt(L, WipeAt(m, size), 0, 0, data)) == Resolved(0, L.TAddrStep(0, true), 1)
    ensures RecoverFixed(L, PushAt(L, WipeAt(m, size), 0, 0, data)) == Resolved(0, L.TAddrStep(0, true), 1)
  {
    var n := L.numOfData;
    var w := WipeAt(m, size);
    forall t: u32 | t <= n
      ensures Records(L, w)[t].ptr == PointerMax
    {
      MulLe(t + 1, n + 1, L.RecordSize());
      WipeErasesSlot(L, m, size, t);
    }
    RecordsAfterPush(L, w, 0, 0, data);
    var recs := Records(L, w);
    FirstPush(L, recs, data);
    var recs' := recs[0 := MakeRecord(data, 0)];
    assert recs'[1].ptr == PointerMax && recs'[n].ptr == PointerMax;
    Init1AfterPushes(L, recs', 0, 0);
    Init2AfterPushes(L, recs', 0, 0);
    FixedAfterPushes(L, recs', 0, 0);
    PeekPushed(L, w, 0, 0, data);
  }

  /** While slot 1 reads as erased, a push from the reset state, onto
      slot 0 with sequence number 0, makes wl_init reset again and leaves
      slot 1 erased: a device that restarts after every push writes only
      slot 0, and the ring does no wear levelling. */
  lemma Init1RestartsAtZero(L: Layout, m: seq<Byte>, data: seq<Byte>)
    requires ScanFits(L, m) && |data| == L.dataSize && Records(L, m)[1].ptr == PointerMax
    ensures L.TAddrToAddr(0) + L.wlDataSize <= |m|
    ensures ScanFits(L, PushAt(L, m, 0, 0, data))
    ensures Init1(L, PushAt(L, m, 0, 0, data)) == Reset
    ensures Records(L, PushAt(L, m, 0, 0, data))[1].ptr == PointerMax
    ensures PeekAt(L, PushAt(L, m, 0, 0, data), 0).data == data
  {
    RecordsAfterPush(L, m, 0, 0, data);
    PeekPushed(L, m, 0, 0, data);
  }

  /** F2: the ring is full up to its last slot and the next push, into
      slot 0, is cut short after its payload and sequence number but before
      its checksum. wl_init2 stops the forward search at slot 0 with no
      step back allowed, and its assert fires; the corrected scan steps
      back around the ring to the last slot. */
  lemma TornWrapHalts(L: Layout, recs: seq<WlData>, p: u32, torn: WlData)
    requires L.numOfData >= 2 && Logged(L, recs, p, L.numOfData - 1) && p + 1 < PointerMax
    requires recs[L.numOfData].ptr == PointerMax
    requires !IsDataValid(torn) && torn.ptr == p + 1
    ensures Init2Of(L, recs[0 := torn]) == Halted
    ensures FixedOf(L, recs[0 := torn]) == Resolved(L.numOfData - 1, 0, p + 1)
  {
    var n := L.numOfData;
    var r: u32 := n - 1;
    StepInRing(L, r);
    TornPush(L, recs, p, r, torn);
    var recs' := recs[0 := torn];
    assert Holds(L, recs, p, r, 1);
    NoWrapChain(n, p);
    assert !Chained(recs'[0], recs'[1]);
    Init2AfterTornPush(L, recs', p, r);
    FixedAfterTornPush(L, recs', p, r);
  }

  /** F3: the ring is full up to its last slot and the slot past the ring
      holds a valid record that happens to carry the next sequence number.
      wl_init follows the chain off the end of the ring and its final assert
      fires; wl_init2 settles on the slot past the ring. The corrected scan
      never reads it. */
  lemma ReadPastRing(L: Layout, recs: seq<WlData>, p: u32)
    requires L.numOfData >= 1 && Logged(L, recs, p, L.numOfData - 1) && p + 1 < PointerMax
    requires IsDataValid(recs[L.numOfData]) && recs[L.numOfData].ptr == p + 1
    ensures Init1Of(L, recs) == Halted
    ensures Init2Of(L, recs) == Resolved(L.numOfData, L.TAddrStep(L.numOfData, true), p + 2)
    ensures FixedOf(L, recs) == Resolved(L.numOfData - 1, 0, p + 1)
  {
    var r: u32 := L.numOfData - 1;
    LoggedChain(L, recs, p, r, 0, false);
    assert Holds(L, recs, p, r, r);
    Init1RunsOff(L, recs, p);
    Init2RunsOff(L, recs, p);
    StepInRing(L, r);
    FixedAfterPushes(L, recs, p, r);
  }

  /** The other side of F3: a full ring followed on the EEPROM by another
      store's record, whatever it holds, is recovered by wl_init and
      wl_init2 unless that record carries the next sequence number. */
  lemma NeighbourStoreIgnored(L: Layout, recs: seq<WlData>, p: u32, next: WlData)
    requires L.numOfData >= 2 && Logged(L, recs, p, L.numOfData - 1) && next.ptr != p + 1
    ensures Init1Of(L, recs[L.numOfData := next]) == Resolved(L.numOfData - 1, 0, p + 1)
    ensures Init2Of(L, recs[L.numOfData := next]) == Resolved(L.numOfData - 1, 0, p + 1)
  {
    var n := L.numOfData;
    var r: u32 := n - 1;
    var recs' := recs[n := next];
    forall s: u32 | s < n
      ensures Holds(L, recs', p, r, s)
    {
      assert Holds(L, recs, p, r, s);
    }
    assert Holds(L, recs', p, r, r);
    assert Wrap(next.ptr - recs'[r].ptr) != 1;
    StepInRing(L, r);
    Init1AfterPushes(L, recs', p, r);
    Init2AfterPushes(L, recs', p, r);
  }

  lemma Init1RunsOff(L: Layout, recs: seq<WlData>, p: u32)
    requires RingView(L, recs) && L.numOfData - 1 <= p && p + 1 < PointerMax
    requires forall i: u32 :: i < L.numOfData - 1 ==> Chained(recs[i], recs[i + 1])
    requires recs[L.numOfData - 1].ptr == p && recs[L.numOfData].ptr == p + 1
    ensures Init1Of(L, recs) == Halted
  {
    var n := L.numOfData;
    Init1Skips(L, recs, 0, n - 1);
    assert Init1Scan(L, recs, n - 1) == Init1Scan(L, recs, n);
  }

  lemma Init2RunsOff(L: Layout, recs: seq<WlData>, p: u32)
    requires RingView(L, recs) && L.numOfData - 1 <= p && p + 1 < PointerMax
    requires forall i: u32 :: i < L.numOfData - 1 ==> Chained(recs[i], recs[NextSlot(L, i, false)])
    requires recs[L.numOfData - 1].ptr == p
    requires IsDataValid(recs[L.numOfData]) && recs[L.numOfData].ptr == p + 1
    ensures Init2Of(L, recs) == Resolved(L.numOfData, L.TAddrStep(L.numOfData, true), p + 2)
  {
    var n := L.numOfData;
    FindSkips(L, recs, false, 0, n - 1);
    assert Find(L, recs, false, n - 1) == Find(L, recs, false, n);
  }
}
