/** The states of the medium that a run of the driver produces: a ring filled
    by consecutive pushes, the same ring with the last push torn, and a wiped
    ring. The recovery theorems are stated over these states. */
module History {
  import opened Words
  import opened Codec
  import opened Layouts
  import opened Medium
  import opened Recovery

  /** How many pushes ago slot `s` was written, when the last push went to
      slot `r` of a ring of `n` slots. */
  function Age(n: nat, r: nat, s: nat): (a: nat)
    requires r < n && s < n
    ensures a < n
    ensures s == r <==> a == 0
  {
    if s <= r then r - s else r + n - s
  }

  /** Slot `s` is as the pushes left it: written `age` pushes before the
      last one, with sequence number p - age and a valid checksum, or never
      written and still erased. */
  predicate Holds(L: Layout, recs: seq<WlData>, p: u32, r: u32, s: u32)
    requires RingView(L, recs) && r < L.numOfData && s < L.numOfData
  {
    var age := Age(L.numOfData, r, s);
    if age <= p then IsDataValid(recs[s]) && recs[s].ptr == p - age
    else recs[s].ptr == PointerMax
  }

  /** The ring after the pushes of sequence numbers 0 to p, the last one at
      slot r, starting from an erased ring. */
  predicate Logged(L: Layout, recs: seq<WlData>, p: u32, r: u32)
  {
    RingView(L, recs) && p < PointerMax && r < L.numOfData && r <= p
    && forall s: u32 :: s < L.numOfData ==> Holds(L, recs, p, r, s)
  }

  /** The same ring after the next push, of sequence number p + 1, was cut
      short: its slot holds bytes that fail the checksum. */
  predicate TornLogged(L: Layout, recs: seq<WlData>, p: u32, r: u32)
  {
    RingView(L, recs) && p + 1 < PointerMax && 2 <= L.numOfData && r < L.numOfData && r <= p
    && !IsDataValid(recs[L.TAddrStep(r, true)])
    && forall s: u32 :: s < L.numOfData && s != L.TAddrStep(r, true) ==> Holds(L, recs, p, r, s)
  }

  // ---------------------------------------------------------------------
  // Pushes

  /** The first push onto an erased ring goes to slot 0 with sequence
      number 0 and starts a history. */
  lemma FirstPush(L: Layout, recs: seq<WlData>, data: seq<Byte>)
    requires RingView(L, recs)
    requires forall t: u32 :: t < L.numOfData ==> recs[t].ptr == PointerMax
    ensures Logged(L, recs[0 := MakeRecord(data, 0)], 0, 0)
  {
    var recs' := recs[0 := MakeRecord(data, 0)];
    forall s: u32 | s < L.numOfData
      ensures Holds(L, recs', 0, 0, s)
    {
    }
  }

  /** Pushing sequence number p + 1 at the slot after the last one extends
      the history: the invariant wl_push keeps. */
  lemma PushLogged(L: Layout, recs: seq<WlData>, p: u32, r: u32, data: seq<Byte>)
    requires Logged(L, recs, p, r) && p + 1 < PointerMax
    ensures L.TAddrStep(r, true) < L.numOfData
    ensures Logged(L, recs[L.TAddrStep(r, true) := MakeRecord(data, p + 1)], p + 1, L.TAddrStep(r, true))
  {
    var n := L.numOfData;
    var h := L.TAddrStep(r, true);
    StepInRing(L, r);
    var q: u32 := p + 1;
    var recs' := recs[h := MakeRecord(data, q)];
    forall s: u32 | s < n
      ensures Holds(L, recs', q, h, s)
    {
      if s != h {
        assert Holds(L, recs, p, r, s);
        assert Age(n, h, s) == Age(n, r, s) + 1;
      }
    }
  }

  /** A push at the head that is cut short, leaving a record that fails
      the checksum, gives a torn history. */
  lemma TornPush(L: Layout, recs: seq<WlData>, p: u32, r: u32, torn: WlData)
    requires Logged(L, recs, p, r) && p + 1 < PointerMax && L.numOfData >= 2
    requires !IsDataValid(torn)
    ensures L.TAddrStep(r, true) < L.numOfData
    ensures TornLogged(L, recs[L.TAddrStep(r, true) := torn], p, r)
  {
    var h := L.TAddrStep(r, true);
    StepInRing(L, r);
    var recs' := recs[h := torn];
    forall s: u32 | s < L.numOfData && s != h
      ensures Holds(L, recs', p, r, s)
    {
      assert Holds(L, recs, p, r, s);
    }
  }

  /** The records after the payloads `ds` were pushed in order onto `recs`,
      starting at slot 0 with sequence number 0: push i goes to slot
      i mod num_of_data with sequence number i, as wl_push advances
      taddr_current and wl_ptr_current. The slot past the ring is never
      written. */
  function Pushed(L: Layout, recs: seq<WlData>, ds: seq<seq<Byte>>): (recs': seq<WlData>)
    requires RingView(L, recs) && |ds| <= PointerMax
    ensures RingView(L, recs') && recs'[L.numOfData] == recs[L.numOfData]
    ensures forall i :: 0 <= i < |ds| && |ds| <= i + L.numOfData ==> recs'[i % L.numOfData] == MakeRecord(ds[i], i)
    ensures forall t :: |ds| <= t < L.numOfData ==> recs'[t] == recs[t]
    decreases |ds|
  {
    if ds == [] then recs
    else
      var k := |ds| - 1;
      var prev := Pushed(L, recs, ds[..k]);
      PushedStep(L, recs, ds, prev);
      prev[k % L.numOfData := MakeRecord(ds[k], k)]
  }

  /** One more push keeps Pushed's placement of the recent pushes and its
      frame on the slots not reached yet. */
  lemma PushedStep(L: Layout, recs: seq<WlData>, ds: seq<seq<Byte>>, prev: seq<WlData>)
    requires RingView(L, recs) && RingView(L, prev) && 1 <= |ds| <= PointerMax
    requires forall i :: 0 <= i < |ds| - 1 && |ds| - 1 <= i + L.numOfData ==> prev[i % L.numOfData] == MakeRecord(ds[..|ds| - 1][i], i)
    requires forall t :: |ds| - 1 <= t < L.numOfData ==> prev[t] == recs[t]
    ensures forall i :: 0 <= i < |ds| && |ds| <= i + L.numOfData ==>
      prev[(|ds| - 1) % L.numOfData := MakeRecord(ds[|ds| - 1], |ds| - 1)][i % L.numOfData] == MakeRecord(ds[i], i)
    ensures forall t :: |ds| <= t < L.numOfData ==>
      prev[(|ds| - 1) % L.numOfData := MakeRecord(ds[|ds| - 1], |ds| - 1)][t] == recs[t]
  {
    var k, n := |ds| - 1, L.numOfData;
    var rec := MakeRecord(ds[k], k);
    var next := prev[k % n := rec];
    ModDistinct(k, n);
    forall i | 0 <= i < |ds| && |ds| <= i + n
      ensures next[i % n] == MakeRecord(ds[i], i)
    {
      if i < k {
        assert i % n != k % n;
        assert ds[..k][i] == ds[i];
      }
    }
    forall t | |ds| <= t < n
      ensures next[t] == recs[t]
    {
      ModUnique(k, n, 0, k);
      assert next[t] == prev[t];
    }
  }

  /** The last n pushes before push k, and push k itself, occupy distinct
      slots: no i with k - n < i < k shares k's remainder mod n. */
  lemma ModDistinct(k: nat, n: nat)
    requires n > 0
    ensures forall i :: 0 <= i < k && k < i + n ==> i % n != k % n
  {
    forall i | 0 <= i < k && k < i + n
      ensures i % n != k % n
    {
      var q: nat, r: nat := i / n, i % n;
      if r + (k - i) < n {
        ModUnique(k, n, q, r + (k - i));
      } else {
        MulSucc(q, n);
        ModUnique(k, n, q + 1, r + (k - i) - n);
      }
    }
  }

  /** The slot after slot (k - 1) mod n is k mod n. */
  lemma ModNext(L: Layout, k: nat)
    requires L.Ring() && k >= 1
    ensures (k - 1) % L.numOfData < L.numOfData
    ensures L.TAddrStep((k - 1) % L.numOfData, true) == k % L.numOfData
  {
    var n: nat := L.numOfData;
    var q: nat, r: nat := (k - 1) / n, (k - 1) % n;
    assert k - 1 == q * n + r;
    StepInRing(L, r);
    if r + 1 == n {
      MulSucc(q, n);
      ModUnique(k, n, q + 1, 0);
    } else {
      ModUnique(k, n, q, r + 1);
    }
  }

  /** The remainder of x = q * n + r with 0 <= r < n is r. */
  lemma ModUnique(x: nat, n: nat, q: nat, r: nat)
    requires r < n && x == q * n + r
    ensures x % n == r
  {
    var q', r' := x / n, x % n;
    assert q' * n + r' == q * n + r;
    if q' < q {
      MulLe(q' + 1, q, n);
      MulSucc(q', n);
    } else if q < q' {
      MulLe(q + 1, q', n);
      MulSucc(q, n);
    }
  }

  /** k >= 1 pushes onto an erased ring leave a history whose last record
      is push k - 1 in slot (k - 1) mod num_of_data; the head is then slot
      k mod num_of_data. */
  lemma {:induction false} PushesFromErased(L: Layout, recs: seq<WlData>, ds: seq<seq<Byte>>)
    requires RingView(L, recs) && 1 <= |ds| <= PointerMax
    requires forall t: u32 :: t < L.numOfData ==> recs[t].ptr == PointerMax
    ensures Logged(L, Pushed(L, recs, ds), |ds| - 1, (|ds| - 1) % L.numOfData)
    ensures L.TAddrStep((|ds| - 1) % L.numOfData, true) == |ds| % L.numOfData
    decreases |ds|
  {
    var k := |ds| - 1;
    ModNext(L, |ds|);
    if k == 0 {
      assert ds[..0] == [] && 0 % L.numOfData == 0;
      assert Pushed(L, recs, ds) == recs[0 := MakeRecord(ds[0], 0)];
      FirstPush(L, recs, ds[0]);
    } else {
      PushesFromErased(L, recs, ds[..k]);
      assert ds[..k][..k - 1] == ds[..k - 1];
      ModNext(L, k);
      PushLogged(L, Pushed(L, recs, ds[..k]), k - 1, (k - 1) % L.numOfData, ds[k]);
    }
  }

  // ---------------------------------------------------------------------
  // The same steps on the medium

  /** The medium after `bytes`, one record long, are written to slot `t`. */
  function Written(L: Layout, m: seq<Byte>, t: u32, bytes: seq<Byte>): (m': seq<Byte>)
    requires ScanFits(L, m) && t < L.numOfData && |bytes| == L.wlDataSize
    ensures ScanFits(L, m')
  {
    SlotAddr(L, |m|, L.numOfData + 1, t);
    Overwrite(m, L.TAddrToAddr(t), bytes)
  }

  /** Writing one slot changes what that slot reads as and nothing else,
      including the slot past the ring. */
  lemma SlotAfterWrite(L: Layout, m: seq<Byte>, t: u32, bytes: seq<Byte>, u: u32)
    requires ScanFits(L, m) && t < L.numOfData && |bytes| == L.wlDataSize && u <= L.numOfData
    ensures Slot(L, Written(L, m, t, bytes), u) == if u == t then Decode(bytes, L.dataSize) else Slot(L, m, u)
  {
    var w: nat := L.wlDataSize;
    var a: nat, b: nat := L.TAddrToAddr(t), L.TAddrToAddr(u);
    SlotAddr(L, |m|, L.numOfData + 1, t);
    SlotAddr(L, |m|, L.numOfData + 1, u);
    if u != t {
      SlotsDisjoint(L, |m|, L.numOfData + 1, t, u);
      OverwriteElsewhere(m, a, bytes, b, w);
    }
  }

  /** What the scans read after a write: the records before it, with the
      written slot replaced. */
  lemma RecordsAfterWrite(L: Layout, m: seq<Byte>, t: u32, bytes: seq<Byte>)
    requires ScanFits(L, m) && t < L.numOfData && |bytes| == L.wlDataSize
    ensures Records(L, Written(L, m, t, bytes)) == Records(L, m)[t := Decode(bytes, L.dataSize)]
  {
    var m' := Written(L, m, t, bytes);
    forall u | 0 <= u <= L.numOfData
      ensures Records(L, m')[u] == Records(L, m)[t := Decode(bytes, L.dataSize)][u]
    {
      SlotAfterWrite(L, m, t, bytes, u);
    }
  }

  /** What the scans read after wl_push(data) at slot h: the pushed record in
      slot h, every other slot as before. */
  lemma RecordsAfterPush(L: Layout, m: seq<Byte>, h: u32, ptr: u32, data: seq<Byte>)
    requires ScanFits(L, m) && h < L.numOfData && |data| == L.dataSize
    ensures L.TAddrToAddr(h) + L.wlDataSize <= |m|
    ensures Written(L, m, h, Encode(MakeRecord(data, ptr))) == PushAt(L, m, h, ptr, data)
    ensures Records(L, PushAt(L, m, h, ptr, data)) == Records(L, m)[h := MakeRecord(data, ptr)]
  {
    SlotAddr(L, |m|, L.numOfData + 1, h);
    RecordsAfterWrite(L, m, h, Encode(MakeRecord(data, ptr)));
    DecodeEncode(MakeRecord(data, ptr));
  }

  /** Slot `t` reads as erased when all of its bytes are 0xFF. */
  lemma ErasedSlot(L: Layout, m: seq<Byte>, t: u32)
    requires ScanFits(L, m) && t <= L.numOfData
    requires forall i :: 0 <= i < |m| && L.TAddrToAddr(t) <= i < L.TAddrToAddr(t) + L.wlDataSize ==> m[i] == ErasedByte
    ensures Records(L, m)[t].ptr == PointerMax
  {
    SlotIsRecord(L, m, t);
    var a: nat, w: nat := L.TAddrToAddr(t), L.wlDataSize;
    var erased := seq(L.dataSize + Overhead, _ => ErasedByte);
    assert m[a..a + w] == erased;
    assert Records(L, m)[t] == Decode(erased, L.dataSize);
    DecodeErased(L.dataSize);
  }

  /** wipe(size) erases every slot that lies below `size`. */
  lemma WipeErasesSlot(L: Layout, m: seq<Byte>, size: nat, t: u32)
    requires ScanFits(L, m) && WipeEnd(size) <= |m| && t <= L.numOfData
    requires L.baseAddr + (t + 1) * L.RecordSize() <= size
    ensures ScanFits(L, WipeAt(m, size))
    ensures Records(L, WipeAt(m, size))[t].ptr == PointerMax
  {
    SlotAddr(L, |m|, L.numOfData + 1, t);
    MulSucc(t, L.RecordSize());
    var a: nat := L.TAddrToAddr(t);
    assert a + L.wlDataSize <= size;
    var m' := WipeAt(m, size);
    forall i | 0 <= i < |m'| && a <= i < a + L.wlDataSize
      ensures m'[i] == ErasedByte
    {
    }
    ErasedSlot(L, m', t);
  }

  /** wipe(size) over the whole ring erases every slot of it. */
  lemma WipeErasesRing(L: Layout, m: seq<Byte>, size: nat)
    requires ScanFits(L, m) && WipeEnd(size) <= |m|
    requires L.baseAddr + L.numOfData * L.RecordSize() <= size
    ensures ScanFits(L, WipeAt(m, size))
    ensures forall t: u32 :: t < L.numOfData ==> Records(L, WipeAt(m, size))[t].ptr == PointerMax
  {
    forall t: u32 | t < L.numOfData
      ensures Records(L, WipeAt(m, size))[t].ptr == PointerMax
    {
      MulLe(t + 1, L.numOfData, L.RecordSize());
      WipeErasesSlot(L, m, size, t);
    }
  }
}
