/** What the recovery scans conclude on the states a run of the driver
    leaves behind: a wiped ring, a ring of consecutive pushes, and the same
    ring with its last push torn. */
module RecoveryProofs {
  import opened Words
  import opened Codec
  import opened Layouts
  import opened Medium
  import opened Recovery
  import opened History

  // ---------------------------------------------------------------------
  // Walking over a chain

  /** The forward search of wl_init2 passes over slots whose successor
      chains onto them. */
  lemma {:induction false} FindSkips(L: Layout, recs: seq<WlData>, circular: bool, t: u32, k: u32)
    requires RingView(L, recs) && t <= k <= L.numOfData
    requires forall i: u32 :: t <= i < k ==> Chained(recs[i], recs[NextSlot(L, i, circular)])
    ensures Find(L, recs, circular, t) == Find(L, recs, circular, k)
    decreases k - t
  {
    if t < k {
      assert Chained(recs[t], recs[NextSlot(L, t, circular)]);
      FindSkips(L, recs, circular, t + 1, k);
    }
  }

  /** The forward loop of wl_init passes over the same slots. */
  lemma {:induction false} Init1Skips(L: Layout, recs: seq<WlData>, t: u32, k: u32)
    requires RingView(L, recs) && t <= k <= L.numOfData
    requires forall i: u32 :: t <= i < k ==> Chained(recs[i], recs[i + 1])
    ensures Init1Scan(L, recs, t) == Init1Scan(L, recs, k)
    decreases k - t
  {
    if t < k {
      assert Chained(recs[t], recs[t + 1]);
      Init1Skips(L, recs, t + 1, k);
    }
  }

  /** Two neighbouring slots written by consecutive pushes chain. */
  lemma ChainStep(L: Layout, recs: seq<WlData>, p: u32, r: u32, i: u32)
    requires RingView(L, recs) && p < PointerMax && r < L.numOfData && r <= p && i < r
    requires Holds(L, recs, p, r, i) && Holds(L, recs, p, r, i + 1)
    ensures Chained(recs[i], recs[i + 1])
    ensures NextSlot(L, i, true) == i + 1
  {
    StepInRing(L, i);
  }

  /** Slots lo to r of a history form one chain, read either way. */
  lemma LoggedChain(L: Layout, recs: seq<WlData>, p: u32, r: u32, lo: u32, circular: bool)
    requires RingView(L, recs) && p < PointerMax && r < L.numOfData && r <= p && lo <= r
    requires forall s: u32 :: lo <= s <= r ==> Holds(L, recs, p, r, s)
    ensures forall i: u32 :: lo <= i < r ==> Chained(recs[i], recs[NextSlot(L, i, circular)])
    ensures forall i: u32 :: lo <= i < r ==> Chained(recs[i], recs[i + 1])
  {
    forall i: u32 | lo <= i < r
      ensures Chained(recs[i], recs[NextSlot(L, i, circular)])
      ensures Chained(recs[i], recs[i + 1])
    {
      ChainStep(L, recs, p, r, i);
    }
  }

  /** A sequence number does not chain onto one that is n steps ahead of it
      or n - 1 steps behind it, for a ring of n slots. */
  lemma NoWrapChain(n: nat, x: int)
    requires 1 <= n < U32
    ensures Wrap(x - (x + n - 1)) != 1
    ensures n >= 2 ==> Wrap(x + 1 - n - x) != 1
  {
  }

  /** The slot past the ring, which the driver's scans compare with slot
      `s` when `s` is the ring's last slot, does not continue the chain from
      `s`: it is erased, or it holds a record (of a store placed right after
      this one at get_end_addr, say) whose sequence number does not follow. */
  predicate PastRingBreaks(L: Layout, recs: seq<WlData>, s: u32)
    requires RingView(L, recs) && s < L.numOfData
  {
    s + 1 < L.numOfData || !Chained(recs[s], recs[L.numOfData])
  }

  /** In a history, the successor of the last slot does not chain onto it:
      around the ring it holds the oldest record or is erased, and past the
      ring it does not continue the chain by hypothesis. */
  lemma LastBreaks(L: Layout, recs: seq<WlData>, p: u32, r: u32, circular: bool)
    requires Logged(L, recs, p, r)
    requires circular || PastRingBreaks(L, recs, r)
    ensures !Chained(recs[r], recs[NextSlot(L, r, circular)])
  {
    var n := L.numOfData;
    StepInRing(L, r);
    var u := NextSlot(L, r, circular);
    assert Holds(L, recs, p, r, r);
    if u < n && n >= 2 {
      assert u == L.TAddrStep(r, true) && u != r;
      assert Holds(L, recs, p, r, u);
      assert Age(n, r, u) == n - 1;
      NoWrapChain(n, p);
    }
  }

  /** On a history, the forward search stops at the last slot. */
  lemma FindStopsAtLast(L: Layout, recs: seq<WlData>, p: u32, r: u32, circular: bool)
    requires Logged(L, recs, p, r)
    requires circular || PastRingBreaks(L, recs, r)
    ensures Find(L, recs, circular, 0) == StopAt(r)
  {
    LoggedChain(L, recs, p, r, 0, circular);
    FindSkips(L, recs, circular, 0, r);
    LastBreaks(L, recs, p, r, circular);
    assert Holds(L, recs, p, r, r);
  }

  // ---------------------------------------------------------------------
  // Recovery after consecutive pushes

  /** wl_init2 recovers a history: the last record, the slot after it as
      the head, and the next sequence number. */
  lemma Init2AfterPushes(L: Layout, recs: seq<WlData>, p: u32, r: u32)
    requires Logged(L, recs, p, r) && PastRingBreaks(L, recs, r)
    ensures Init2Of(L, recs) == Resolved(r, L.TAddrStep(r, true), p + 1)
  {
    FindStopsAtLast(L, recs, p, r, false);
    assert Holds(L, recs, p, r, r);
  }

  /** wl_init recovers a history too, except when the last record is in
      slot 0 and the slot after it is erased: then it reports wiped memory,
      and the next push overwrites slot 0 with sequence number 0. */
  lemma Init1AfterPushes(L: Layout, recs: seq<WlData>, p: u32, r: u32)
    requires Logged(L, recs, p, r) && PastRingBreaks(L, recs, r)
    ensures Init1Of(L, recs) == if r == 0 && recs[1].ptr == PointerMax then Reset
                           else Resolved(r, L.TAddrStep(r, true), p + 1)
  {
    LoggedChain(L, recs, p, r, 0, false);
    Init1Skips(L, recs, 0, r);
    LastBreaks(L, recs, p, r, false);
    assert Holds(L, recs, p, r, r);
  }

  /** The corrected scan recovers every history, whatever lies past the
      ring. */
  lemma FixedAfterPushes(L: Layout, recs: seq<WlData>, p: u32, r: u32)
    requires Logged(L, recs, p, r)
    ensures FixedOf(L, recs) == Resolved(r, L.TAddrStep(r, true), p + 1)
  {
    FindStopsAtLast(L, recs, p, r, true);
    assert Holds(L, recs, p, r, r);
  }

  /** After k >= 1 pushes onto an erased ring, wl_init2 and the corrected
      scan recover push k - 1 in slot (k - 1) mod num_of_data, the head
      k mod num_of_data and the next sequence number k. For wl_init2 the
      slot past the ring must not continue the chain when push k - 1 is in
      the ring's last slot. */
  lemma RecoverAfterPushes(L: Layout, recs: seq<WlData>, ds: seq<seq<Byte>>)
    requires RingView(L, recs) && 1 <= |ds| <= PointerMax
    requires forall t: u32 :: t < L.numOfData ==> recs[t].ptr == PointerMax
    requires |ds| % L.numOfData != 0 || !Chained(MakeRecord(ds[|ds| - 1], |ds| - 1), recs[L.numOfData])
    ensures var k := |ds|; var n := L.numOfData;
      && Init2Of(L, Pushed(L, recs, ds)) == Resolved((k - 1) % n, k % n, k)
      && FixedOf(L, Pushed(L, recs, ds)) == Resolved((k - 1) % n, k % n, k)
  {
    PushesFromErased(L, recs, ds);
    var p: u32 := |ds| - 1;
    ModNext(L, |ds|);
    StepInRing(L, p % L.numOfData);
    Init2AfterPushes(L, Pushed(L, recs, ds), p, p % L.numOfData);
    FixedAfterPushes(L, Pushed(L, recs, ds), p, p % L.numOfData);
  }

  /** After num_of_data + 1 pushes onto an erased ring the ring has wrapped
      once: slot 0 holds the last push, with sequence number num_of_data,
      and wl_init2 and the corrected scan resume there, with the head at
      slot 1 (slot 0 in a ring of one slot) and sequence number
      num_of_data + 1. */
  lemma WrapsOnce(L: Layout, recs: seq<WlData>, ds: seq<seq<Byte>>)
    requires RingView(L, recs) && |ds| == L.numOfData + 1 && |ds| <= PointerMax
    requires forall t: u32 :: t < L.numOfData ==> recs[t].ptr == PointerMax
    requires L.numOfData > 1 || !Chained(MakeRecord(ds[L.numOfData], L.numOfData), recs[L.numOfData])
    ensures Pushed(L, recs, ds)[0] == MakeRecord(ds[L.numOfData], L.numOfData)
    ensures Init2Of(L, Pushed(L, recs, ds)) == Resolved(0, 1 % L.numOfData, L.numOfData + 1)
    ensures FixedOf(L, Pushed(L, recs, ds)) == Resolved(0, 1 % L.numOfData, L.numOfData + 1)
  {
    var n := L.numOfData;
    ModUnique(n, n, 1, 0);
    if n == 1 {
      ModUnique(n + 1, n, 2, 0);
    } else {
      ModUnique(n + 1, n, 1, 1);
    }
    RecoverAfterPushes(L, recs, ds);
  }

  /** A push at the head that recovery found, with the sequence number it
      found, extends the history, and recovery then finds that push. */
  lemma PushThenRecover(L: Layout, recs: seq<WlData>, p: u32, r: u32, data: seq<Byte>)
    requires Logged(L, recs, p, r) && p + 1 < PointerMax
    requires L.TAddrStep(r, true) + 1 < L.numOfData || !Chained(MakeRecord(data, p + 1), recs[L.numOfData])
    ensures L.TAddrStep(r, true) < L.numOfData
    ensures var h := L.TAddrStep(r, true);
      var recs' := recs[h := MakeRecord(data, p + 1)];
      && Logged(L, recs', p + 1, h)
      && Init2Of(L, recs') == Resolved(h, L.TAddrStep(h, true), p + 2)
      && FixedOf(L, recs') == Resolved(h, L.TAddrStep(h, true), p + 2)
  {
    var h := L.TAddrStep(r, true);
    PushLogged(L, recs, p, r, data);
    var recs' := recs[h := MakeRecord(data, p + 1)];
    Init2AfterPushes(L, recs', p + 1, h);
    FixedAfterPushes(L, recs', p + 1, h);
  }

  /** The driver's cycle on the medium: wl_init2 recovers a history, the
      push it prepares (at the head it found, with the sequence number it
      found) lands in the slot after the last record, and the next wl_init2
      finds that push. */
  lemma PushAfterRecovery(L: Layout, m: seq<Byte>, p: u32, r: u32, data: seq<Byte>)
    requires ScanFits(L, m) && |data| == L.dataSize && p + 1 < PointerMax
    requires Logged(L, Records(L, m), p, r) && PastRingBreaks(L, Records(L, m), r)
    requires L.TAddrStep(r, true) + 1 < L.numOfData || !Chained(MakeRecord(data, p + 1), Records(L, m)[L.numOfData])
    ensures Init2(L, m) == Resolved(r, L.TAddrStep(r, true), p + 1)
    ensures L.TAddrToAddr(L.TAddrStep(r, true)) + L.wlDataSize <= |m|
    ensures ScanFits(L, PushAt(L, m, L.TAddrStep(r, true), p + 1, data))
    ensures Init2(L, PushAt(L, m, L.TAddrStep(r, true), p + 1, data))
         == Resolved(L.TAddrStep(r, true), L.TAddrStep(L.TAddrStep(r, true), true), p + 2)
  {
    var recs := Records(L, m);
    Init2AfterPushes(L, recs, p, r);
    var h := L.TAddrStep(r, true);
    RecordsAfterPush(L, m, h, p + 1, data);
    PushThenRecover(L, recs, p, r, data);
  }

  // ---------------------------------------------------------------------
  // Recovery of wiped memory

  lemma Init1Fresh(L: Layout, recs: seq<WlData>)
    requires RingView(L, recs) && recs[0].ptr == PointerMax && recs[1].ptr == PointerMax
    ensures Init1Of(L, recs) == Reset
  {
    assert !Chained(recs[0], recs[1]);
  }

  lemma Init2Fresh(L: Layout, recs: seq<WlData>)
    requires RingView(L, recs) && recs[0].ptr == PointerMax && recs[1].ptr == PointerMax
    ensures Init2Of(L, recs) == Reset
  {
    assert NextSlot(L, 0, false) == 1;
  }

  lemma FixedFresh(L: Layout, recs: seq<WlData>)
    requires RingView(L, recs) && recs[0].ptr == PointerMax && recs[1].ptr == PointerMax
    ensures FixedOf(L, recs) == Reset
  {
    StepInRing(L, 0);
  }

  /** The forward search ends as wiped memory only at the slot it starts
      from: every later slot it reaches is chained onto, so it does not hold
      the sentinel. */
  lemma {:induction false} FindWipeAtStart(L: Layout, recs: seq<WlData>, circular: bool, t: u32)
    requires RingView(L, recs) && t <= L.numOfData
    ensures Find(L, recs, circular, t) == WipeFound ==>
      t < L.numOfData && recs[t].ptr == PointerMax && recs[NextSlot(L, t, circular)].ptr == PointerMax
    decreases L.numOfData - t
  {
    if t <= L.endTAddr {
      var next := recs[NextSlot(L, t, circular)];
      if next.ptr != PointerMax && Wrap(next.ptr - recs[t].ptr) == 1 {
        FindWipeAtStart(L, recs, circular, t + 1);
        StepInRing(L, t);
      }
    }
  }

  /** A valid record can resolve to the reset state only in a ring of one
      slot, and only when it holds the sentinel sequence number. */
  lemma SettledOnReset(L: Layout, recs: seq<WlData>, r: Outcome)
    requires RingView(L, recs) && r == Reset && SettledOn(L, recs, r)
    ensures L.numOfData == 1 && recs[0].ptr == PointerMax
  {
    StepInRing(L, 0);
  }

  /** wl_init2 takes its wiped-memory branch exactly when slots 0 and 1 hold
      the sentinel. It resets only when slot 0 holds the sentinel, and, in a
      ring of more than one slot, exactly when slots 0 and 1 both do. */
  lemma Init2ResetsOnlyWiped(L: Layout, recs: seq<WlData>)
    requires RingView(L, recs)
    ensures Find(L, recs, false, L.baseTAddr) == WipeFound <==> recs[0].ptr == PointerMax && recs[1].ptr == PointerMax
    ensures Init2Of(L, recs) == Reset ==> recs[0].ptr == PointerMax
    ensures L.numOfData > 1 ==>
      (Init2Of(L, recs) == Reset <==> recs[0].ptr == PointerMax && recs[1].ptr == PointerMax)
  {
    FindWipeAtStart(L, recs, false, 0);
    if Find(L, recs, false, 0) != WipeFound && Init2Of(L, recs) == Reset {
      SettledOnReset(L, recs, Init2Of(L, recs));
    }
  }

  /** The corrected scan takes its wiped-memory branch exactly when slot 0
      and the slot after it around the ring hold the sentinel. It resets only
      when slot 0 holds the sentinel, and, in a ring of more than one slot,
      exactly when slots 0 and 1 both do. */
  lemma FixedResetsOnlyWiped(L: Layout, recs: seq<WlData>)
    requires RingView(L, recs)
    ensures Find(L, recs, true, L.baseTAddr) == WipeFound <==>
      recs[0].ptr == PointerMax && recs[1 % L.numOfData].ptr == PointerMax
    ensures FixedOf(L, recs) == Reset ==> recs[0].ptr == PointerMax
    ensures L.numOfData > 1 ==>
      (FixedOf(L, recs) == Reset <==> recs[0].ptr == PointerMax && recs[1].ptr == PointerMax)
  {
    StepInRing(L, 0);
    FindWipeAtStart(L, recs, true, 0);
    if Find(L, recs, true, 0) != WipeFound && FixedOf(L, recs) == Reset {
      SettledOnReset(L, recs, FixedOf(L, recs));
    }
  }

  /** After wipe(size) has erased the first two slots, all three scans
      start over at slot 0 with sequence number 0. */
  lemma WipeThenRecover(L: Layout, m: seq<Byte>, size: nat)
    requires ScanFits(L, m) && WipeEnd(size) <= |m|
    requires L.baseAddr + 2 * L.RecordSize() <= size
    ensures ScanFits(L, WipeAt(m, size))
    ensures Init1(L, WipeAt(m, size)) == Reset
    ensures Init2(L, WipeAt(m, size)) == Reset
    ensures RecoverFixed(L, WipeAt(m, size)) == Reset
  {
    var recs := Records(L, WipeAt(m, size));
    WipeErasesSlot(L, m, size, 0);
    WipeErasesSlot(L, m, size, 1);
    Init1Fresh(L, recs);
    Init2Fresh(L, recs);
    FixedFresh(L, recs);
  }

  // ---------------------------------------------------------------------
  // Recovery after a torn push

  /** When the torn record at the head happens to chain onto the last one,
      the slot after the head does not chain onto the torn record. */
  lemma TornNextBreaks(L: Layout, recs: seq<WlData>, p: u32, r: u32, circular: bool)
    requires TornLogged(L, recs, p, r) && r + 1 < L.numOfData
    requires Chained(recs[r], recs[r + 1])
    requires circular || PastRingBreaks(L, recs, r + 1)
    ensures recs[r + 1].ptr == p + 1
    ensures !Chained(recs[r + 1], recs[NextSlot(L, r + 1, circular)])
  {
    var n := L.numOfData;
    var h: u32 := r + 1;
    StepInRing(L, r);
    StepInRing(L, h);
    assert Holds(L, recs, p, r, r);
    var g := NextSlot(L, h, circular);
    if g < n {
      assert g == L.TAddrStep(h, true);
      if g == r {
        NoWrapChain(1, p + 1);
      } else {
        assert Holds(L, recs, p, r, g);
        assert Age(n, r, g) == n - 2;
        NoWrapChain(n, p + 1);
      }
    }
  }

  /** Slot 1 after a torn push into slot 0: the record pushed n - 2 before
      the last one. */
  lemma TornSlotOne(L: Layout, recs: seq<WlData>, p: u32, r: u32)
    requires TornLogged(L, recs, p, r) && r + 1 == L.numOfData
    ensures L.TAddrStep(r, true) == 0 && NextSlot(L, 0, true) == 1
    ensures recs[1].ptr == p + 2 - L.numOfData
  {
    StepInRing(L, r);
    StepInRing(L, 0);
    assert Holds(L, recs, p, r, 1);
  }

  /** Where the forward search stops after a torn push into a slot other
      than 0: at the last complete record, or at the torn record when that
      happens to chain onto it. */
  lemma TornMidFind(L: Layout, recs: seq<WlData>, p: u32, r: u32, circular: bool)
    requires TornLogged(L, recs, p, r) && r + 1 < L.numOfData
    requires circular || PastRingBreaks(L, recs, r + 1)
    ensures L.TAddrStep(r, true) == r + 1 && L.TAddrStep(r + 1, false) == r
    ensures Find(L, recs, circular, 0) == StopAt(if Chained(recs[r], recs[r + 1]) then r + 1 else r)
  {
    StepInRing(L, r);
    StepInRing(L, r + 1);
    LoggedChain(L, recs, p, r, 0, circular);
    FindSkips(L, recs, circular, 0, r);
    assert Holds(L, recs, p, r, r);
    if Chained(recs[r], recs[r + 1]) {
      TornNextBreaks(L, recs, p, r, circular);
      assert Find(L, recs, circular, r) == Find(L, recs, circular, r + 1);
    }
  }

  /** Where the forward search stops after a torn push into slot 0: at slot
      0, or at the last slot when the torn record chains onto slot 1. */
  lemma TornWrapFind(L: Layout, recs: seq<WlData>, p: u32, r: u32, circular: bool)
    requires TornLogged(L, recs, p, r) && r + 1 == L.numOfData
    requires circular || PastRingBreaks(L, recs, r)
    ensures L.TAddrStep(r, true) == 0 && L.TAddrStep(0, false) == r
    ensures Find(L, recs, circular, 0) == StopAt(if Chained(recs[0], recs[1]) then r else 0)
  {
    TornSlotOne(L, recs, p, r);
    StepInRing(L, r);
    assert Holds(L, recs, p, r, r);
    if Chained(recs[0], recs[1]) {
      assert Find(L, recs, circular, 0) == Find(L, recs, circular, 1);
      LoggedChain(L, recs, p, r, 1, circular);
      FindSkips(L, recs, circular, 1, r);
      NoWrapChain(L.numOfData, p);
    }
  }

  /** The backward search of wl_init2 and of the corrected scan, started at
      a torn record, steps back once to the valid record before it. */
  lemma RetreatPastTorn(L: Layout, recs: seq<WlData>, h: u32, limit: nat)
    requires RingView(L, recs) && h < L.numOfData && 1 <= limit
    requires !IsDataValid(recs[h]) && IsDataValid(recs[L.TAddrStep(h, false)])
    ensures Retreat(L, recs, h, 0, limit) == ResolveAt(L, recs, L.TAddrStep(h, false))
  {
    StepInRing(L, h);
    assert Retreat(L, recs, h, 0, limit) == Retreat(L, recs, L.TAddrStep(h, false), 1, limit);
  }

  /** The backward search of wl_init, started at a torn record other than
      slot 0, steps back once; the wiped-memory test is then made on the
      slot before it. */
  lemma Init1RetreatPastTorn(L: Layout, recs: seq<WlData>, h: u32, nextPtr: u32)
    requires RingView(L, recs) && 0 < h < L.numOfData
    requires !IsDataValid(recs[h]) && IsDataValid(recs[h - 1])
    ensures Init1Retreat(L, recs, h, nextPtr, 0) ==
      if h == 1 && nextPtr == PointerMax then Reset else ResolveAt(L, recs, h - 1)
  {
    StepInRing(L, h);
    assert Init1Retreat(L, recs, h, nextPtr, 0) == Init1Retreat(L, recs, h - 1, nextPtr, 1);
  }

  /** What a torn history offers the backward searches: a valid last record
      with sequence number p and a torn record right after it. */
  lemma TornEnds(L: Layout, recs: seq<WlData>, p: u32, r: u32)
    requires TornLogged(L, recs, p, r)
    ensures L.TAddrStep(r, true) != r && L.TAddrStep(L.TAddrStep(r, true), false) == r
    ensures IsDataValid(recs[r]) && recs[r].ptr == p
    ensures ResolveAt(L, recs, r) == Resolved(r, L.TAddrStep(r, true), p + 1)
  {
    StepInverse(L, r);
    StepInRing(L, r);
    assert Holds(L, recs, p, r, r);
  }

  /** The corrected scan recovers the last complete record after any torn
      push. */
  lemma FixedAfterTornPush(L: Layout, recs: seq<WlData>, p: u32, r: u32)
    requires TornLogged(L, recs, p, r)
    ensures FixedOf(L, recs) == Resolved(r, L.TAddrStep(r, true), p + 1)
  {
    var h := L.TAddrStep(r, true);
    TornEnds(L, recs, p, r);
    if r + 1 < L.numOfData {
      TornMidFind(L, recs, p, r, true);
    } else {
      TornWrapFind(L, recs, p, r, true);
    }
    if Find(L, recs, true, 0) == StopAt(h) {
      RetreatPastTorn(L, recs, h, L.numOfData - 1);
    }
  }

  /** wl_init2 recovers a torn push, except when the torn record is in
      slot 0 and breaks the chain there: the backward search may then take
      no step at all, and its assert fires. */
  lemma Init2AfterTornPush(L: Layout, recs: seq<WlData>, p: u32, r: u32)
    requires TornLogged(L, recs, p, r)
    requires PastRingBreaks(L, recs, r) && PastRingBreaks(L, recs, L.TAddrStep(r, true))
    ensures Init2Of(L, recs) == if L.TAddrStep(r, true) == 0 && !Chained(recs[0], recs[1]) then Halted
                           else Resolved(r, L.TAddrStep(r, true), p + 1)
  {
    var h := L.TAddrStep(r, true);
    TornEnds(L, recs, p, r);
    if r + 1 < L.numOfData {
      TornMidFind(L, recs, p, r, false);
      if Find(L, recs, false, 0) == StopAt(h) {
        RetreatPastTorn(L, recs, h, h);
      }
    } else {
      TornWrapFind(L, recs, p, r, false);
    }
  }

  /** wl_init after a torn push into a slot other than 0. The wiped-memory
      test looks at the slot after the break: the torn record, or the slot
      after it when the torn record chains onto the last one. */
  lemma Init1TornMid(L: Layout, recs: seq<WlData>, p: u32, r: u32)
    requires TornLogged(L, recs, p, r) && r + 1 < L.numOfData
    requires PastRingBreaks(L, recs, r + 1)
    ensures Init1Of(L, recs) ==
      if r == 0 && (if Chained(recs[0], recs[1]) then recs[2].ptr else recs[1].ptr) == PointerMax
      then Reset else Resolved(r, r + 1, p + 1)
  {
    TornEnds(L, recs, p, r);
    StepInRing(L, r);
    LoggedChain(L, recs, p, r, 0, false);
    Init1Skips(L, recs, 0, r);
    if Chained(recs[r], recs[r + 1]) {
      TornNextBreaks(L, recs, p, r, false);
      assert Init1Scan(L, recs, r) == Init1Scan(L, recs, r + 1);
      Init1RetreatPastTorn(L, recs, r + 1, recs[r + 2].ptr);
    }
  }

  /** wl_init after a torn push into slot 0. */
  lemma Init1TornWrap(L: Layout, recs: seq<WlData>, p: u32, r: u32)
    requires TornLogged(L, recs, p, r) && r + 1 == L.numOfData
    requires PastRingBreaks(L, recs, r)
    ensures Init1Of(L, recs) == Resolved(r, 0, p + 1)
  {
    TornEnds(L, recs, p, r);
    TornSlotOne(L, recs, p, r);
    StepInRing(L, r);
    if Chained(recs[0], recs[1]) {
      assert Init1Scan(L, recs, 0) == Init1Scan(L, recs, 1);
      LoggedChain(L, recs, p, r, 1, false);
      Init1Skips(L, recs, 1, r);
    } else {
      StepInRing(L, 0);
      assert Init1Retreat(L, recs, 0, recs[1].ptr, 0) == Init1Retreat(L, recs, r, recs[1].ptr, 1);
    }
  }

  /** wl_init recovers a torn push unless the last record is in slot 0 and
      the wiped-memory test then succeeds: the torn record reads as erased,
      or it chains onto slot 0 and slot 2 is erased. */
  lemma Init1AfterTornPush(L: Layout, recs: seq<WlData>, p: u32, r: u32)
    requires TornLogged(L, recs, p, r)
    requires PastRingBreaks(L, recs, r) && PastRingBreaks(L, recs, L.TAddrStep(r, true))
    ensures Init1Of(L, recs) ==
      if r == 0 && (recs[1].ptr == PointerMax
                    || (Chained(recs[0], recs[1]) && recs[2].ptr == PointerMax))
      then Reset
      else Resolved(r, L.TAddrStep(r, true), p + 1)
  {
    StepInRing(L, r);
    if r + 1 == L.numOfData {
      Init1TornWrap(L, recs, p, r);
    } else {
      Init1TornMid(L, recs, p, r);
    }
  }

  // ---------------------------------------------------------------------
  // When the backward searches give up

  /** The do-while loop of wl_init2 halts exactly when none of the slots it
      may visit, the slot `t` and the `limit - attempts` slots behind it,
      passes the checksum. */
  lemma {:induction false} RetreatGivesUp(L: Layout, recs: seq<WlData>, t: u32, attempts: nat, limit: nat)
    requires RingView(L, recs) && t <= L.numOfData && attempts <= limit
    ensures Retreat(L, recs, t, attempts, limit) == Halted <==> NoneValidBack(L, recs, t, limit - attempts + 1)
    decreases limit - attempts
  {
    var count := limit - attempts + 1;
    assert BackSteps(L, t, 0) == t;
    if IsDataValid(recs[t]) {
      assert !NoneValidBack(L, recs, t, count);
    } else if attempts + 1 > limit {
      assert NoneValidBack(L, recs, t, count);
    } else {
      var u := L.TAddrStep(t, false);
      RetreatGivesUp(L, recs, u, attempts + 1, limit);
      if NoneValidBack(L, recs, u, count - 1) {
        forall k: nat | k < count
          ensures !IsDataValid(recs[BackSteps(L, t, k)])
        {
          if k > 0 {
            assert BackSteps(L, t, k) == BackSteps(L, u, k - 1);
          }
        }
      } else {
        var j: nat :| j < count - 1 && IsDataValid(recs[BackSteps(L, u, j)]);
        assert BackSteps(L, t, j + 1) == BackSteps(L, u, j);
      }
    }
  }

  /** Without wrapping, k backward steps from `t` lead to slot t - k. */
  lemma {:induction false} BackStepsDown(L: Layout, t: u32, k: nat)
    requires L.Ring() && t <= L.numOfData && k <= t
    ensures BackSteps(L, t, k) == t - k
    decreases k
  {
    if k > 0 {
      BackStepsDown(L, t - 1, k - 1);
    }
  }

  /** Inside the ring, k < num_of_data backward steps from `t` lead to slot
      t - k, taken around the ring. */
  lemma {:induction false} BackStepsAround(L: Layout, t: u32, k: nat)
    requires L.Ring() && t < L.numOfData && k < L.numOfData
    ensures BackSteps(L, t, k) == if k <= t then t - k else t + L.numOfData - k
    decreases k
  {
    if k > 0 {
      StepInRing(L, t);
      BackStepsAround(L, L.TAddrStep(t, false), k - 1);
    }
  }

  /** Every slot of the ring is among the first num_of_data slots a
      backward search from `t` visits. */
  lemma BackStepsCover(L: Layout, t: u32, s: u32) returns (k: nat)
    requires L.Ring() && t < L.numOfData && s < L.numOfData
    ensures k < L.numOfData && BackSteps(L, t, k) == s
  {
    k := if s <= t then t - s else t + L.numOfData - s;
    BackStepsAround(L, t, k);
  }

  /** The backward search of wl_init2, started where the forward search
      stopped at slot t and allowed t steps, halts exactly when none of the
      slots 0 to t passes the checksum. */
  lemma Init2RetreatGivesUp(L: Layout, recs: seq<WlData>, t: u32)
    requires RingView(L, recs) && t <= L.numOfData
    ensures Retreat(L, recs, t, 0, t) == Halted <==> forall s: u32 :: s <= t ==> !IsDataValid(recs[s])
  {
    RetreatGivesUp(L, recs, t, 0, t);
    if NoneValidBack(L, recs, t, t + 1) {
      forall s: u32 | s <= t
        ensures !IsDataValid(recs[s])
      {
        BackStepsDown(L, t, t - s);
      }
    } else {
      var k: nat :| k < t + 1 && IsDataValid(recs[BackSteps(L, t, k)]);
      BackStepsDown(L, t, k);
    }
  }

  /** wl_init2 halts exactly when it finds no wiped memory and none of the
      slots from 0 to where its forward search stopped passes the checksum. */
  lemma Init2GivesUp(L: Layout, recs: seq<WlData>)
    requires RingView(L, recs)
    ensures Init2Of(L, recs) == Halted <==>
      match Find(L, recs, false, 0)
      case WipeFound => false
      case StopAt(t) => forall s: u32 :: s <= t ==> !IsDataValid(recs[s])
  {
    match Find(L, recs, false, 0)
    case WipeFound =>
    case StopAt(t) => Init2RetreatGivesUp(L, recs, t);
  }

  /** The backward search of the corrected scan halts exactly when no slot
      of the ring passes the checksum. */
  lemma FixedRetreatGivesUp(L: Layout, recs: seq<WlData>, t: u32)
    requires RingView(L, recs) && t < L.numOfData
    ensures Retreat(L, recs, t, 0, L.numOfData - 1) == Halted <==>
      forall s: u32 :: s < L.numOfData ==> !IsDataValid(recs[s])
  {
    RetreatGivesUp(L, recs, t, 0, L.numOfData - 1);
    if NoneValidBack(L, recs, t, L.numOfData) {
      forall s: u32 | s < L.numOfData
        ensures !IsDataValid(recs[s])
      {
        var k := BackStepsCover(L, t, s);
      }
    } else {
      var k: nat :| k < L.numOfData && IsDataValid(recs[BackSteps(L, t, k)]);
      var s: u32 := BackSteps(L, t, k);
      assert s < L.numOfData && IsDataValid(recs[s]);
    }
  }

  /** Slot 0 is among the first `count` slots a backward search from `t`
      visits. */
  predicate ReachesZero(L: Layout, t: u32, count: nat)
    requires L.Ring() && t <= L.numOfData
  {
    exists k: nat :: k < count && BackSteps(L, t, k) == 0
  }

  /** The backward loop of wl_init halts exactly when none of the slots it
      visits passes the checksum and its wiped-memory test never fires. */
  lemma {:induction false} Init1RetreatHalts(L: Layout, recs: seq<WlData>, t: u32, nextPtr: u32, attempts: nat)
    requires RingView(L, recs) && t < L.numOfData && attempts < L.numOfData
    ensures Init1Retreat(L, recs, t, nextPtr, attempts) == Halted <==>
      NoneValidBack(L, recs, t, L.numOfData - attempts)
      && (nextPtr == PointerMax ==> !ReachesZero(L, t, L.numOfData - attempts))
    decreases L.numOfData - attempts
  {
    var count := L.numOfData - attempts;
    assert BackSteps(L, t, 0) == t;
    if t == 0 && nextPtr == PointerMax {
      assert ReachesZero(L, t, count);
    } else if IsDataValid(recs[t]) {
      assert !NoneValidBack(L, recs, t, count);
    } else if attempts + 1 >= L.numOfData {
      assert NoneValidBack(L, recs, t, count);
      if ReachesZero(L, t, count) {
        var k: nat :| k < count && BackSteps(L, t, k) == 0;
      }
    } else {
      var u := L.TAddrStep(t, false);
      StepInRing(L, t);
      Init1RetreatHalts(L, recs, u, nextPtr, attempts + 1);
      forall k: nat | 0 < k < count
        ensures BackSteps(L, t, k) == BackSteps(L, u, k - 1)
      {
      }
      if NoneValidBack(L, recs, u, count - 1) {
        forall k: nat | k < count
          ensures !IsDataValid(recs[BackSteps(L, t, k)])
        {
          if k > 0 {
            assert BackSteps(L, t, k) == BackSteps(L, u, k - 1);
          }
        }
      } else {
        var j: nat :| j < count - 1 && IsDataValid(recs[BackSteps(L, u, j)]);
        assert BackSteps(L, t, j + 1) == BackSteps(L, u, j);
      }
      if nextPtr == PointerMax && ReachesZero(L, t, count) {
        var k: nat :| k < count && BackSteps(L, t, k) == 0;
        assert k > 0 && BackSteps(L, u, k - 1) == 0;
      }
      if ReachesZero(L, u, count - 1) {
        var j: nat :| j < count - 1 && BackSteps(L, u, j) == 0;
        assert BackSteps(L, t, j + 1) == 0;
      }
    }
  }

  /** Started at a slot of the ring, the backward loop of wl_init halts
      exactly when no slot of the ring passes the checksum and the slot
      after the break does not hold the sentinel: walking all the way
      around, it would otherwise reach slot 0 and report wiped memory. */
  lemma Init1RetreatGivesUp(L: Layout, recs: seq<WlData>, t: u32, nextPtr: u32)
    requires RingView(L, recs) && t < L.numOfData
    ensures Init1Retreat(L, recs, t, nextPtr, 0) == Halted <==>
      nextPtr != PointerMax && forall s: u32 :: s < L.numOfData ==> !IsDataValid(recs[s])
  {
    var n := L.numOfData;
    Init1RetreatHalts(L, recs, t, nextPtr, 0);
    var z := BackStepsCover(L, t, 0);
    assert ReachesZero(L, t, n);
    if NoneValidBack(L, recs, t, n) {
      forall s: u32 | s < n
        ensures !IsDataValid(recs[s])
      {
        var k := BackStepsCover(L, t, s);
      }
    } else {
      var k: nat :| k < n && IsDataValid(recs[BackSteps(L, t, k)]);
      var s: u32 := BackSteps(L, t, k);
      assert s < n && IsDataValid(recs[s]);
    }
  }

  /** A forward search that runs off the end of the ring passed over slots
      that all chain onto their successors. */
  lemma {:induction false} RunOffChains(L: Layout, recs: seq<WlData>, circular: bool, t: u32)
    requires RingView(L, recs) && t <= L.numOfData
    requires Find(L, recs, circular, t) == StopAt(L.numOfData)
    ensures forall i: u32 :: t <= i < L.numOfData ==> Chained(recs[i], recs[NextSlot(L, i, circular)])
    decreases L.numOfData - t
  {
    if t < L.numOfData {
      RunOffChains(L, recs, circular, t + 1);
    }
  }

  /** Along a chain from slot 0, slot i carries the sequence number of
      slot 0 plus i, in uint32_t arithmetic. */
  lemma {:induction false} ChainedPtrs(L: Layout, recs: seq<WlData>, i: u32)
    requires RingView(L, recs) && i < L.numOfData
    requires forall j: u32 :: j < i ==> Chained(recs[j], recs[NextSlot(L, j, true)])
    ensures recs[i].ptr == Wrap(recs[0].ptr + i)
    decreases i
  {
    if i > 0 {
      ChainedPtrs(L, recs, i - 1);
      StepInRing(L, i - 1);
      assert Chained(recs[i - 1], recs[NextSlot(L, i - 1, true)]);
    }
  }

  /** Counting up from x in uint32_t, the number n - 1 steps on is not
      followed by x itself, for 1 <= n < 2^32. */
  lemma NoCircle(x: u32, n: nat)
    requires 1 <= n < U32
    ensures Wrap(x - Wrap(x + n - 1)) != 1
  {
    if x + n - 1 < U32 {
      assert Wrap(x + n - 1) == x + n - 1;
    } else {
      assert Wrap(x + n - 1) == x + n - 1 - U32;
    }
  }

  /** The forward search of the corrected scan always stops inside the
      ring: num_of_data < 2^32 consecutive sequence numbers cannot close a
      circle. */
  lemma FixedStaysInRing(L: Layout, recs: seq<WlData>)
    requires RingView(L, recs)
    ensures Find(L, recs, true, 0) != StopAt(L.numOfData)
  {
    var n := L.numOfData;
    if Find(L, recs, true, 0) == StopAt(n) {
      StepInRing(L, n - 1);
      var closing := NextSlot(L, n - 1, true);
      NoCircle(recs[0].ptr, n);
      RunOffChains(L, recs, true, 0);
      ChainedPtrs(L, recs, n - 1);
      assert false;
    }
  }

  /** The corrected scan halts exactly when it finds no wiped memory and no
      slot of the ring passes the checksum. */
  lemma FixedGivesUp(L: Layout, recs: seq<WlData>)
    requires RingView(L, recs)
    ensures FixedOf(L, recs) == Halted <==>
      Find(L, recs, true, 0) != WipeFound && forall s: u32 :: s < L.numOfData ==> !IsDataValid(recs[s])
  {
    FixedStaysInRing(L, recs);
    match Find(L, recs, true, 0)
    case WipeFound =>
    case StopAt(t) => FixedRetreatGivesUp(L, recs, t);
  }
}
