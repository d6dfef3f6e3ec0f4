/** The packed wear-levelling record `wl_data_t`: the payload bytes, then a
    4-byte sequence number `ptr` (little-endian, as on the ESP32), then a
    1-byte checksum `crc`, with no padding. */
module Codec {
  import opened Words

  /** sizeof(uint32_t) + sizeof(uint8_t): what a record adds to its payload. */
  const Overhead: nat := 5

  /** The sequence number an erased slot reads as (four 0xFF bytes). */
  const PointerMax: u32 := 0xFFFF_FFFF

  /** The byte an erased EEPROM cell holds. */
  const ErasedByte: Byte := 0xFF

  datatype WlData = WlData(data: seq<Byte>, ptr: u32, crc: Byte)

  // ---------------------------------------------------------------------
  // Little-endian integers

  function Pow256(k: nat): (p: nat)
    ensures p >= 1
  {
    if k == 0 then 1 else 256 * Pow256(k - 1)
  }

  /** The k bytes of `x`, least significant first. */
  function LeBytes(x: nat, k: nat): (bs: seq<Byte>)
    requires x < Pow256(k)
    ensures |bs| == k
  {
    if k == 0 then [] else [ByteOf(x % 256)] + LeBytes(x / 256, k - 1)
  }

  /** The unsigned integer whose little-endian bytes are `bs`. */
  function FromLe(bs: seq<Byte>): nat
  {
    if bs == [] then 0 else bs[0] as nat + 256 * FromLe(bs[1..])
  }

  lemma {:induction false} FromLeLeBytes(x: nat, k: nat)
    requires x < Pow256(k)
    ensures FromLe(LeBytes(x, k)) == x
  {
    if k > 0 {
      var bs := LeBytes(x, k);
      assert bs == [ByteOf(x % 256)] + LeBytes(x / 256, k - 1);
      assert bs[1..] == LeBytes(x / 256, k - 1);
      ByteOfValue(x % 256);
      FromLeLeBytes(x / 256, k - 1);
    }
  }

  lemma {:induction false} LeBytesFromLe(bs: seq<Byte>)
    ensures FromLe(bs) < Pow256(|bs|)
    ensures LeBytes(FromLe(bs), |bs|) == bs
  {
    if bs != [] {
      LeBytesFromLe(bs[1..]);
      ByteOfByte(bs[0]);
      DivMod256(bs[0] as nat, FromLe(bs[1..]));
    }
  }

  lemma DivMod256(lo: nat, hi: nat)
    requires lo < 256
    ensures (lo + 256 * hi) % 256 == lo && (lo + 256 * hi) / 256 == hi
  {
  }

  lemma Pow256Of4()
    ensures Pow256(4) == U32
  {
  }

  // ---------------------------------------------------------------------
  // Checksum

  /** calc_crc: XOR of the payload bytes, accumulated from the first byte to
      the last (WL_AT24CX.h:385-398). */
  function CalcCrc(data: seq<Byte>): Byte
  {
    if data == [] then 0 else CalcCrc(data[..|data| - 1]) ^ data[|data| - 1]
  }

  /** The checksum of a concatenation combines the checksums of the parts, so
      the accumulation order does not matter. */
  lemma {:induction false} CalcCrcAppend(a: seq<Byte>, b: seq<Byte>)
    ensures CalcCrc(a + b) == CalcCrc(a) ^ CalcCrc(b)
  {
    if b == [] {
      assert a + b == a;
    } else {
      var b' := b[..|b| - 1];
      assert (a + b)[..|a + b| - 1] == a + b';
      CalcCrcAppend(a, b');
    }
  }

  lemma CalcCrcSingle(x: Byte)
    ensures CalcCrc([x]) == x
  {
    assert [x][..0] == [];
  }

  /** A payload that differs from another in exactly one byte has a different
      checksum: a single corrupted byte is always detected. */
  lemma CalcCrcDetectsOneByte(a: seq<Byte>, b: seq<Byte>, i: nat)
    requires |a| == |b| && i < |a| && a[i] != b[i]
    requires forall j :: 0 <= j < |a| && j != i ==> a[j] == b[j]
    ensures CalcCrc(a) != CalcCrc(b)
  {
    assert a == a[..i] + [a[i]] + a[i + 1..];
    assert b == b[..i] + [b[i]] + b[i + 1..];
    assert a[..i] == b[..i];
    assert a[i + 1..] == b[i + 1..];
    CalcCrcAppend(a[..i] + [a[i]], a[i + 1..]);
    CalcCrcAppend(a[..i], [a[i]]);
    CalcCrcAppend(b[..i] + [b[i]], b[i + 1..]);
    CalcCrcAppend(b[..i], [b[i]]);
    CalcCrcSingle(a[i]);
    CalcCrcSingle(b[i]);
  }

  /** The checksum of k erased bytes: 0xFF when k is odd, 0 when it is even. */
  lemma {:induction false} CalcCrcErased(k: nat)
    ensures CalcCrc(seq(k, _ => ErasedByte)) == if k % 2 == 1 then 0xFF else 0
  {
    if k > 0 {
      var s := seq(k, _ => ErasedByte);
      assert s[..k - 1] == seq(k - 1, _ => ErasedByte);
      CalcCrcErased(k - 1);
    }
  }

  // ---------------------------------------------------------------------
  // Records

  /** isdatavalid: the stored checksum matches the stored payload
      (WL_AT24CX.h:428-435). */
  predicate IsDataValid(r: WlData)
  {
    r.crc == CalcCrc(r.data)
  }

  /** The buffer wl_push writes: the payload, the sequence number to use and
      a freshly computed checksum (WL_AT24CX.h:234-238). */
  function MakeRecord(data: seq<Byte>, ptr: u32): (r: WlData)
    ensures r.data == data && r.ptr == ptr
    ensures IsDataValid(r)
  {
    WlData(data, ptr, CalcCrc(data))
  }

  /** The bytes of a record as they lie on the medium. */
  function Encode(r: WlData): (bs: seq<Byte>)
    ensures |bs| == |r.data| + Overhead
    ensures bs[..|r.data|] == r.data && bs[|r.data| + 4] == r.crc
    ensures bs[|r.data|..|r.data| + 4] == LeBytes(r.ptr, 4)
  {
    Pow256Of4();
    r.data + LeBytes(r.ptr, 4) + [r.crc]
  }

  /** Reading a record of a `dataSize`-byte payload back from its bytes:
      any such bytes are the packing of the record they read as. */
  function Decode(bs: seq<Byte>, dataSize: nat): (r: WlData)
    requires |bs| == dataSize + Overhead
    ensures |r.data| == dataSize
    ensures Encode(r) == bs
  {
    var ptr := bs[dataSize..dataSize + 4];
    LeBytesFromLe(ptr);
    Pow256Of4();
    assert bs == bs[..dataSize] + ptr + [bs[dataSize + 4]];
    WlData(bs[..dataSize], FromLe(ptr), bs[dataSize + 4])
  }

  lemma DecodeEncode(r: WlData)
    ensures Decode(Encode(r), |r.data|) == r
  {
    Pow256Of4();
    var bs := Encode(r);
    var n := |r.data|;
    assert bs[n..n + 4] == LeBytes(r.ptr, 4);
    FromLeLeBytes(r.ptr, 4);
  }

  /** Four erased bytes read as the sentinel. */
  lemma FromLeErased(ff: seq<Byte>)
    requires ff == [0xFF, 0xFF, 0xFF, 0xFF]
    ensures FromLe(ff) == PointerMax
  {
    assert FromLe(ff[3..]) == 0xFF;
    assert FromLe(ff[2..]) == 0xFFFF;
    assert FromLe(ff[1..]) == 0xFF_FFFF;
  }

  /** An erased slot decodes to the sentinel sequence number, and it passes
      the checksum test exactly when the payload has an odd number of bytes. */
  lemma DecodeErased(dataSize: nat)
    ensures var r := Decode(seq(dataSize + Overhead, _ => ErasedByte), dataSize);
      && r.ptr == PointerMax
      && (forall i :: 0 <= i < dataSize ==> r.data[i] == ErasedByte)
      && (IsDataValid(r) <==> dataSize % 2 == 1)
  {
    var bs := seq(dataSize + Overhead, _ => ErasedByte);
    var r := Decode(bs, dataSize);
    var ff: seq<Byte> := [0xFF, 0xFF, 0xFF, 0xFF];
    assert bs[dataSize..dataSize + 4] == ff;
    FromLeErased(ff);
    assert r.data == seq(dataSize, _ => ErasedByte);
    CalcCrcErased(dataSize);
  }
}
