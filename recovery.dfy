/** What the two start-up scans, wl_init and wl_init2, conclude from the
    medium. Each scan walks forward from slot 0 looking for a break in the
    chain of sequence numbers, then walks backward from the break until a
    record passes the checksum. An `assert` that fires in the driver is the
    outcome `Halted`.

    The scans only ever look at the medium through wl_peek, so they are
    stated over `recs`, the records of slots 0 to num_of_data as wl_peek
    returns them (`Records` below). */
module Recovery {
  import opened Words
  import opened Codec
  import opened Layouts
  import opened Medium

  /** Where recovery leaves the store: `last` is taddr_last, `head` is
      taddr_current and `ptr` is wl_ptr_current. */
  datatype Outcome = Resolved(last: u32, head: u32, ptr: u32) | Halted

  /** The outcome of wiped memory: everything back at zero. */
  const Reset: Outcome := Resolved(0, 0, 0)

  /** The records of a ring of num_of_data slots and of the one slot past
      it, which both scans read (WL_AT24CX.h:84, WL_AT24CX.h:148). */
  predicate RingView(L: Layout, recs: seq<WlData>)
  {
    L.Ring() && |recs| == L.numOfData + 1
  }

  /** `next` carries the sequence number right after the one of `cur`, in
      uint32_t arithmetic, and is not the erased sentinel: no break between
      them. */
  predicate Chained(cur: WlData, next: WlData)
  {
    next.ptr != PointerMax && Wrap(next.ptr - cur.ptr) == 1
  }

  /** The state a scan settles on when slot `t` holds the last record: the
      head is the slot after it and the next sequence number is one more. */
  function ResolveAt(L: Layout, recs: seq<WlData>, t: u32): (r: Outcome)
    requires RingView(L, recs) && t <= L.numOfData
    ensures r.Resolved? && r.last == t && r.head < L.numOfData
  {
    Resolved(t, L.TAddrStep(t, true), Wrap(recs[t].ptr + 1))
  }

  /** What a resolved outcome promises: slot `last` holds a record that
      passes the checksum, the head is the slot after it, and the next
      sequence number follows the last one. */
  predicate SettledOn(L: Layout, recs: seq<WlData>, r: Outcome)
    requires RingView(L, recs)
  {
    r.Resolved? && r.last <= L.numOfData && IsDataValid(recs[r.last])
    && r.head == L.TAddrStep(r.last, true) && r.ptr == Wrap(recs[r.last].ptr + 1)
  }

  // ---------------------------------------------------------------------
  // wl_init (WL_AT24CX.h:75-132)

  /** The forward loop of wl_init from slot `t`: the first slot whose
      successor does not chain onto it starts the backward search; running
      off the end of the ring is the final assert(0). */
  function Init1Scan(L: Layout, recs: seq<WlData>, t: u32): (r: Outcome)
    requires RingView(L, recs) && t <= L.numOfData
    ensures r.Resolved? ==> r == Reset || (r.last < L.numOfData && SettledOn(L, recs, r))
    decreases L.numOfData - t
  {
    if t > L.endTAddr then Halted
    else if !Chained(recs[t], recs[t + 1]) then Init1Retreat(L, recs, t, recs[t + 1].ptr, 0)
    else Init1Scan(L, recs, t + 1)
  }

  /** The inner loop of wl_init. The wiped-memory test is made again at every
      step, with the sequence number of the successor of the slot where the
      break was found. Each failed checksum steps back one slot; the assert
      fires once `attempts` reaches num_of_data. */
  function Init1Retreat(L: Layout, recs: seq<WlData>, t: u32, nextPtr: u32, attempts: nat): (r: Outcome)
    requires RingView(L, recs) && t < L.numOfData && attempts < L.numOfData
    ensures r.Resolved? ==> r == Reset || (r.last < L.numOfData && SettledOn(L, recs, r))
    decreases L.numOfData - attempts
  {
    if t == 0 && nextPtr == PointerMax then Reset
    else if IsDataValid(recs[t]) then ResolveAt(L, recs, t)
    else if attempts + 1 < L.numOfData then
      Init1Retreat(L, recs, L.TAddrStep(t, false), nextPtr, attempts + 1)
    else Halted
  }

  function Init1Of(L: Layout, recs: seq<WlData>): (r: Outcome)
    requires RingView(L, recs)
    ensures r.Resolved? ==> r == Reset || (r.last < L.numOfData && SettledOn(L, recs, r))
  {
    Init1Scan(L, recs, L.baseTAddr)
  }

  // ---------------------------------------------------------------------
  // wl_init2 (WL_AT24CX.h:134-222) and the corrected scan

  /** Where a forward search stops: at wiped memory, or at a slot. */
  datatype Stop = WipeFound | StopAt(t: u32)

  /** The slot a forward search compares slot `t` with: the next index as
      the driver reads it, or the next slot around the ring. */
  function NextSlot(L: Layout, t: u32, circular: bool): (u: u32)
    requires L.Ring() && t < L.numOfData
    ensures u <= L.numOfData
    ensures !circular ==> u == t + 1
  {
    if circular then L.TAddrStep(t, true) else t + 1
  }

  /** The first loop of wl_init2 from slot `t`. A successor holding the
      sentinel ends the search, as wiped memory when the slot holds the
      sentinel too; a sequence number that does not follow ends it at `t`.
      When no slot of the ring ends it, the index is left at num_of_data. */
  function Find(L: Layout, recs: seq<WlData>, circular: bool, t: u32): (s: Stop)
    requires RingView(L, recs) && t <= L.numOfData
    ensures s.StopAt? ==> t <= s.t <= L.numOfData
    ensures s.StopAt? && s.t < L.numOfData ==> !Chained(recs[s.t], recs[NextSlot(L, s.t, circular)])
    decreases L.numOfData - t
  {
    if t > L.endTAddr then StopAt(t)
    else
      var cur, next := recs[t], recs[NextSlot(L, t, circular)];
      if next.ptr == PointerMax then (if cur.ptr == PointerMax then WipeFound else StopAt(t))
      else if Wrap(next.ptr - cur.ptr) != 1 then StopAt(t)
      else Find(L, recs, circular, t + 1)
  }

  /** The do-while loop of wl_init2: step back from `t` while the checksum
      fails; the assert fires once more than `limit` steps were needed. */
  function Retreat(L: Layout, recs: seq<WlData>, t: u32, attempts: nat, limit: nat): (r: Outcome)
    requires RingView(L, recs) && t <= L.numOfData && attempts <= limit
    ensures r.Resolved? ==> SettledOn(L, recs, r)
    ensures r.Resolved? && t < L.numOfData ==> r.last < L.numOfData
    decreases limit - attempts
  {
    if IsDataValid(recs[t]) then ResolveAt(L, recs, t)
    else if attempts + 1 > limit then Halted
    else Retreat(L, recs, L.TAddrStep(t, false), attempts + 1, limit)
  }

  /** The slot `k` backward steps from slot `t`, the order in which the
      backward searches visit slots. */
  function BackSteps(L: Layout, t: u32, k: nat): (u: u32)
    requires L.Ring() && t <= L.numOfData
    ensures u <= L.numOfData
    ensures k > 0 ==> u < L.numOfData
    decreases k
  {
    if k == 0 then t else BackSteps(L, L.TAddrStep(t, false), k - 1)
  }

  /** None of the first `count` slots a backward search from `t` visits
      passes the checksum. */
  predicate NoneValidBack(L: Layout, recs: seq<WlData>, t: u32, count: nat)
    requires RingView(L, recs) && t <= L.numOfData
  {
    forall k: nat :: k < count ==> !IsDataValid(recs[BackSteps(L, t, k)])
  }

  /** wl_init2: the backward search may take as many steps as the forward
      search advanced (`dataChecked`). */
  function Init2Of(L: Layout, recs: seq<WlData>): (r: Outcome)
    requires RingView(L, recs)
    ensures r.Resolved? ==> r == Reset || SettledOn(L, recs, r)
  {
    match Find(L, recs, false, L.baseTAddr)
    case WipeFound => Reset
    case StopAt(t) => Retreat(L, recs, t, 0, t)
  }

  /** The scan as it is evidently meant to work: the successor of the last
      slot is slot 0, so nothing outside the ring is read, and the backward
      search may visit every slot of the ring once. */
  function FixedOf(L: Layout, recs: seq<WlData>): (r: Outcome)
    requires RingView(L, recs)
    ensures r.Resolved? ==> r == Reset || (r.last < L.numOfData && SettledOn(L, recs, r))
  {
    match Find(L, recs, true, L.baseTAddr)
    case WipeFound => Reset
    case StopAt(t) => if t < L.numOfData then Retreat(L, recs, t, 0, L.numOfData - 1) else Halted
  }

  // ---------------------------------------------------------------------
  // The scans on the medium

  /** The scans assert wl_enable, and the medium must hold the slot past the
      ring that they read. */
  predicate ScanFits(L: Layout, m: seq<Byte>)
  {
    L.Sized() && L.Ring() && L.wlEnable && Fits(L, |m|, L.numOfData + 1)
  }

  /** wl_peek(t) for any slot the scans can reach. */
  function Slot(L: Layout, m: seq<Byte>, t: u32): (r: WlData)
    requires ScanFits(L, m) && t <= L.numOfData
    ensures |r.data| == L.dataSize
  {
    SlotAddr(L, |m|, L.numOfData + 1, t);
    PeekAt(L, m, t)
  }

  /** What the scans read: wl_peek of slots 0 to num_of_data. */
  function Records(L: Layout, m: seq<Byte>): (recs: seq<WlData>)
    requires ScanFits(L, m)
    ensures RingView(L, recs)
  {
    seq(L.numOfData + 1, t requires 0 <= t <= L.numOfData => Slot(L, m, t))
  }

  /** wl_peek of a slot the scans reach is the record they see there. */
  lemma SlotIsRecord(L: Layout, m: seq<Byte>, t: u32)
    requires ScanFits(L, m) && t <= L.numOfData
    ensures L.TAddrToAddr(t) + L.wlDataSize <= |m|
    ensures PeekAt(L, m, t) == Records(L, m)[t]
  {
    SlotAddr(L, |m|, L.numOfData + 1, t);
  }

  /** `recs` is what wl_peek returns for the slots the scans reach. The
      link is only used where a slot is actually peeked at. */
  predicate ReadsAs(L: Layout, m: seq<Byte>, recs: seq<WlData>)
  {
    ScanFits(L, m) && RingView(L, recs)
    && forall t: u32 {:trigger PeekAt(L, m, t)} ::
         t <= L.numOfData && L.TAddrToAddr(t) + L.wlDataSize <= |m| ==> PeekAt(L, m, t) == recs[t]
  }

  lemma RecordsReadAs(L: Layout, m: seq<Byte>)
    requires ScanFits(L, m)
    ensures ReadsAs(L, m, Records(L, m))
  {
    forall t: u32 | t <= L.numOfData && L.TAddrToAddr(t) + L.wlDataSize <= |m|
      ensures PeekAt(L, m, t) == Records(L, m)[t]
    {
      SlotIsRecord(L, m, t);
    }
  }

  /** wl_init on the medium. */
  function Init1(L: Layout, m: seq<Byte>): (r: Outcome)
    requires ScanFits(L, m)
    ensures r.Resolved? ==> r == Reset || (r.last < L.numOfData && SettledOn(L, Records(L, m), r))
  {
    Init1Of(L, Records(L, m))
  }

  /** wl_init2 on the medium. */
  function Init2(L: Layout, m: seq<Byte>): (r: Outcome)
    requires ScanFits(L, m)
    ensures r.Resolved? ==> r == Reset || SettledOn(L, Records(L, m), r)
  {
    Init2Of(L, Records(L, m))
  }

  /** The corrected scan on the medium. */
  function RecoverFixed(L: Layout, m: seq<Byte>): (r: Outcome)
    requires ScanFits(L, m)
    ensures r.Resolved? ==> r == Reset || (r.last < L.numOfData && SettledOn(L, Records(L, m), r))
  {
    FixedOf(L, Records(L, m))
  }
}
