# WL_AT24CX: a wear-levelled record ring on an AT24CX EEPROM

WL_AT24CX is a C++ header for the ESP32. It stores a stream of fixed-size
values (`data_t`) on an I2C EEPROM of the AT24CX family, following the
high-endurance scheme of Atmel application note AVR101.

The store owns `num_of_data` slots, starting at `base_addr`. Every
`wl_push` writes one record, `wl_data_t`, to the next slot around the ring.
A record is the payload, a 32-bit sequence number `ptr` and an 8-bit XOR
checksum `crc`. The writes spread over all slots, so each cell wears
`num_of_data` times more slowly.

The store keeps no header on the EEPROM. At start-up one of two scans
rebuilds its three fields from the records:
- `taddr_current` is the slot the next push goes to (the head);
- `taddr_last` is the slot of the last record;
- `wl_ptr_current` is the next sequence number.

The two scans are `wl_init` and a second scan, `wl_init2`. Each walks
forward to the first break in the chain of sequence numbers. It then steps
back until a record passes the checksum. A slot that was never written
holds 0xFF bytes, so its sequence number reads as the sentinel 0xFFFFFFFF.

Without wear levelling, `write_mem` and `read_mem` address bare payloads by
index modulo `num_of_data`. `wipe` fills the EEPROM with 0xFF from address 0
on.

The model has nine modules:
- `Words`: bytes, and `uint32_t` with its wrap-around written out as `Wrap`.
- `Codec`: the packed record, its little-endian encoding and `calc_crc`.
- `Layouts`: the configuration the constructor derives, the slot and address
  mapping, and `taddr_step`.
- `Medium`: the EEPROM as a byte sequence, and what `wl_peek`, `wl_push`,
  `read_mem`, `write_mem` and `wipe` do to it.
- `Recovery`: the two scans as functions over `recs`, the records of slots 0
  to `num_of_data` as `wl_peek` returns them. It also has the corrected
  scan `FixedOf`.
- `History`: the states a run of the driver produces. These are a ring
  filled by consecutive pushes (`Logged`, reached from an erased ring by
  `Pushed`), the same ring with its last push torn (`TornLogged`), and a
  wiped ring.
- `RecoveryProofs`: what each scan recovers from those states, and
  exactly when each backward search gives up.
- `Findings`: the three defects below, each stated as a lemma.
- `Store`: the class `WlAt24cx`. It has the object's fields and an array for
  the EEPROM. Its methods follow the driver's loops, and each is proved
  against the functions above.

Outcomes of a scan:
- `Resolved(last, head, ptr)` is the three fields the scan sets.
- `Halted` is one of the driver's `assert`s firing.

## Model

| member | source | states |
|---|---|---|
| Codec.FromLeLeBytes | WL_AT24CX.h:21-26 | the sequence number's four little-endian bytes decode back to the number |
| Codec.LeBytesFromLe | WL_AT24CX.h:21-26 | every four bytes are the encoding of exactly one 32-bit sequence number |
| Codec.MakeRecord | WL_AT24CX.h:234-238 | the record wl_push builds carries the payload and the current sequence number, and passes isdatavalid |
| Codec.DecodeEncode | WL_AT24CX.h:21-26 | reading back the packed bytes of a record gives the record |
| Codec.Encode | WL_AT24CX.h:21-26 | the packed record is sizeof(data_t) + 5 bytes: the payload first, then the sequence number as four little-endian bytes (the ESP32 byte order), then the checksum at offset sizeof(data_t) + 4 |
| Codec.Decode | WL_AT24CX.h:21-26 | any sizeof(wl_data_t) bytes read as a record with a sizeof(data_t)-byte payload, and are exactly the packing of that record |
| Codec.DecodeErased | WL_AT24CX.h:353 | an all-0xFF slot reads as the sentinel pointer_max with a 0xFF payload; it passes the checksum exactly when sizeof(data_t) is odd |
| Codec.CalcCrcAppend | WL_AT24CX.h:385-398 | the checksum of a concatenation is the XOR of the parts' checksums |
| Codec.CalcCrcDetectsOneByte | WL_AT24CX.h:385-398 | two payloads that differ in exactly one byte have different checksums |
| Codec.CalcCrcErased | WL_AT24CX.h:385-398 | k erased bytes have checksum 0xFF when k is odd and 0 when k is even |
| Layouts.Layout.TAddrToAddr | WL_AT24CX.h:357-367 | the byte address of slot taddr is base_addr plus taddr strides, reduced once modulo 2^32 although the C code wraps after the multiplication and again after the addition |
| Layouts.Layout.AddrToTAddr | WL_AT24CX.h:369-377 | the slot is the number of whole strides in the uint32_t distance from base_addr to the address; base_addr itself is slot 0 |
| Layouts.Layout.TAddrStep | WL_AT24CX.h:406-419 | a forward step lands inside the ring from any index, even one past the ring; a backward step lands inside the ring from any slot up to num_of_data |
| Layouts.NewLayout | WL_AT24CX.h:46-69 | the constructor keeps its arguments; the stride is sizeof(wl_data_t) = sizeof(data_t) + 5 with wear levelling; base_taddr is 0; end_taddr is num_of_data - 1; end_addr is base_addr plus num_of_data strides, all in uint32_t |
| Layouts.EndAddrExact | WL_AT24CX.h:60-63 | without 32-bit overflow, get_end_addr is the first address past the ring |
| Store.WlAt24cx.GetEndAddr | WL_AT24CX.h:277-284 | without 32-bit overflow, get_end_addr returns the first address past the ring, where a next store can be placed |
| Layouts.TAddrToAddrExact | WL_AT24CX.h:357-367 | without 32-bit overflow, slot taddr starts taddr strides past base_addr |
| Layouts.AddrRoundTrip | WL_AT24CX.h:357-377 | addr_to_taddr undoes taddr_to_addr if and only if taddr times the stride stays below 2^32 |
| Layouts.StepInRing | WL_AT24CX.h:406-419 | inside the ring, a forward step goes from the last slot to slot 0 and otherwise to taddr + 1; a backward step goes from slot 0 to end_taddr and otherwise to taddr - 1 |
| Layouts.StepInverse | WL_AT24CX.h:406-419 | inside the ring, a forward step and a backward step cancel, in either order |
| Medium.PeekAt | WL_AT24CX.h:324-331 | wl_peek returns the record whose packing is the sizeof(wl_data_t) bytes at taddr_to_addr(taddr), with a sizeof(data_t)-byte payload |
| Medium.PushAt | WL_AT24CX.h:234-241 | wl_push writes the packing of (data, wl_ptr_current, calc_crc(data)) at taddr_to_addr(taddr_current) and leaves every other byte of the EEPROM as it was |
| Medium.WriteMemAt | WL_AT24CX.h:254-260 | write_mem writes the bare payload at slot taddr mod num_of_data and leaves every other byte as it was |
| Medium.ReadMemAt | WL_AT24CX.h:268-273 | read_mem returns sizeof(data_t) bytes; Medium.ReadMemAfterWriteMem and Medium.ReadMemFrame say which |
| Medium.PeekPushed | WL_AT24CX.h:234-241 | wl_peek of the slot just pushed returns the pushed payload and sequence number, with a valid checksum |
| Medium.PeekPushFrame | WL_AT24CX.h:240-241 | a push leaves the record of every other slot unchanged |
| Medium.ReadMemAfterWriteMem | WL_AT24CX.h:254-273 | read_mem returns what write_mem stored, for any index that is the same slot modulo num_of_data |
| Medium.ReadMemFrame | WL_AT24CX.h:254-273 | write_mem leaves the payload of every other slot unchanged |
| Medium.WipeEnd | WL_AT24CX.h:295 | wipe(size) covers whole 8-byte chunks: at least size bytes and fewer than size + 8 |
| Medium.WipeAt | WL_AT24CX.h:292-299 | after wipe(size) every byte from address 0 up to size is 0xFF, whatever the store's base address; so are the bytes from size up to the end of the last 8-byte chunk (up to 7 bytes past size), and every byte from there on keeps its value |
| Medium.WipedSlotErased | WL_AT24CX.h:292-299 | a slot lying inside the wiped range reads as the sentinel with a 0xFF payload |
| Recovery.Init1Scan | WL_AT24CX.h:82-129 | when the forward loop of wl_init resolves, it is the wiped reset or a slot of the ring holding a valid record, with the head the slot after it and the sequence number one more |
| Recovery.Init1Retreat | WL_AT24CX.h:88-124 | the backward loop of wl_init resolves only to the wiped reset or to a valid record in the ring, with the head after it |
| Recovery.Init1Of | WL_AT24CX.h:75-132 | wl_init resolves only to the wiped reset or to a valid record in the ring, with the head after it and the next sequence number |
| Recovery.Find | WL_AT24CX.h:143-187 | the forward search stops at or after where it starts, and the slot it stops at inside the ring does not chain onto its successor |
| Recovery.Retreat | WL_AT24CX.h:189-219 | the backward search resolves only to a slot holding a valid record, with the head after it and the sequence number one more |
| Recovery.Init2Of | WL_AT24CX.h:134-222 | wl_init2 resolves only to the wiped reset or to a valid record, possibly the one past the ring |
| Recovery.FixedOf | WL_AT24CX.h:134-222 | the corrected scan resolves only to the wiped reset or to a valid record inside the ring |
| Recovery.Init1 | WL_AT24CX.h:75-132 | wl_init on the EEPROM's bytes settles only on a valid record in the ring, or resets |
| Recovery.Init2 | WL_AT24CX.h:134-222 | wl_init2 on the EEPROM's bytes settles only on a valid record, or resets |
| Recovery.RecoverFixed | WL_AT24CX.h:134-222 | the corrected scan on the EEPROM's bytes settles only on a valid record in the ring, or resets |
| Recovery.SlotIsRecord | WL_AT24CX.h:324-331 | wl_peek of a slot the scans reach lies on the EEPROM and is the record the scans see there |
| History.FirstPush | WL_AT24CX.h:230-246 | the first push onto an erased ring, into slot 0 with sequence number 0, starts a history |
| History.PushLogged | WL_AT24CX.h:230-246 | a push at the slot after the last one, with the next sequence number, extends a history: the invariant wl_push keeps |
| History.TornPush | WL_AT24CX.h:240-241 | a push cut short, leaving a record that fails the checksum, leaves a torn history |
| History.Pushed | WL_AT24CX.h:230-246 | k pushes from slot 0 and sequence number 0 put each of the last num_of_data pushes, push i, in slot i mod num_of_data with sequence number i; slots not reached yet keep their records, and the slot past the ring is never written |
| History.PushesFromErased | WL_AT24CX.h:230-246 | k >= 1 pushes onto an erased ring leave a history whose last record is push k - 1 in slot (k - 1) mod num_of_data, with the head at k mod num_of_data |
| History.RecordsAfterWrite | WL_AT24CX.h:240-241 | writing one slot changes what the scans read at that slot and nowhere else, including the slot past the ring |
| History.RecordsAfterPush | WL_AT24CX.h:230-246 | after wl_push at slot h, the scans read the pushed record at h and the old records elsewhere |
| History.ErasedSlot | WL_AT24CX.h:353 | a slot whose bytes are all 0xFF reads as the sentinel |
| History.WipeErasesSlot | WL_AT24CX.h:292-299 | wipe(size) erases every slot lying below size |
| History.WipeErasesRing | WL_AT24CX.h:292-299 | wipe(size) over the whole ring leaves every slot reading as the sentinel |
| RecoveryProofs.FindSkips | WL_AT24CX.h:143-186 | the forward search passes over every slot whose successor chains onto it |
| RecoveryProofs.Init1Skips | WL_AT24CX.h:82-127 | the forward loop of wl_init passes over every slot whose successor chains onto it |
| RecoveryProofs.LastBreaks | WL_AT24CX.h:158-163 | in a history, the successor of the last record breaks the chain: around the ring always, and past the ring whenever the slot there (erased, or another store's record) does not carry the next sequence number |
| RecoveryProofs.FindStopsAtLast | WL_AT24CX.h:143-186 | in a history, the forward search stops at the last record; for the driver's search this needs only that the slot past the ring does not continue the chain when the last record is in the ring's last slot |
| RecoveryProofs.Init2AfterPushes | WL_AT24CX.h:134-222 | after any run of pushes, wl_init2 recovers the last slot, the head after it and the next sequence number, unless the last record is in the ring's last slot and the slot past the ring carries the next sequence number (the third finding) |
| RecoveryProofs.Init1AfterPushes | WL_AT24CX.h:75-132 | under the same condition on the slot past the ring, wl_init recovers the same state, except that it resets when the last record is in slot 0 and slot 1 is erased |
| RecoveryProofs.FixedAfterPushes | WL_AT24CX.h:134-222 | the corrected scan recovers every history, whatever lies past the ring |
| RecoveryProofs.RecoverAfterPushes | WL_AT24CX.h:134-246 | after k >= 1 pushes onto an erased ring, whatever lies past it, wl_init2 and the corrected scan recover slot (k - 1) mod num_of_data as the last, k mod num_of_data as the head and k as the next sequence number; for wl_init2 the slot past the ring must not carry sequence number k when push k - 1 is in the last slot |
| RecoveryProofs.WrapsOnce | WL_AT24CX.h:134-246 | after num_of_data + 1 pushes onto an erased ring, slot 0 holds the last push with sequence number num_of_data, and wl_init2 and the corrected scan resume at last 0, head 1 (0 in a ring of one slot), sequence number num_of_data + 1; in a ring of one slot the slot past it must not continue the last push |
| RecoveryProofs.PushThenRecover | WL_AT24CX.h:230-246 | a push at the head recovery found, with the sequence number it found, extends the history, and both wl_init2 and the corrected scan then find that push, unless it went to the ring's last slot and the slot past the ring continues it |
| RecoveryProofs.PushAfterRecovery | WL_AT24CX.h:134-246 | on the EEPROM's bytes: wl_init2 recovers a history, then wl_push at the recovered head is found by the next wl_init2, as long as the slot past the ring continues neither the last record nor the pushed one where it is compared with them |
| RecoveryProofs.Init1Fresh | WL_AT24CX.h:91-99 | when slots 0 and 1 are erased, wl_init resets to head 0, last 0, sequence number 0 |
| RecoveryProofs.Init2Fresh | WL_AT24CX.h:165-170 | when slots 0 and 1 are erased, wl_init2 resets to head 0, last 0, sequence number 0 |
| RecoveryProofs.FixedFresh | WL_AT24CX.h:165-170 | when slots 0 and 1 are erased, the corrected scan resets too |
| RecoveryProofs.FindWipeAtStart | WL_AT24CX.h:143-176 | the forward search reports wiped memory only at the slot it starts from, and only when that slot and its successor hold the sentinel |
| RecoveryProofs.SettledOnReset | WL_AT24CX.h:194-206 | a valid record settles on (0, 0, 0) only in a ring of one slot whose record holds the sentinel sequence number |
| RecoveryProofs.Init2ResetsOnlyWiped | WL_AT24CX.h:143-170 | wl_init2 takes its wiped-memory branch exactly when slots 0 and 1 hold the sentinel; it resets only when slot 0 holds the sentinel, and in a ring of more than one slot exactly when slots 0 and 1 both do |
| RecoveryProofs.FixedResetsOnlyWiped | WL_AT24CX.h:143-170 | the corrected scan takes its wiped-memory branch exactly when slot 0 and the slot after it around the ring hold the sentinel; in a ring of more than one slot it resets exactly when slots 0 and 1 both do |
| RecoveryProofs.WipeThenRecover | WL_AT24CX.h:292-303 | after a wipe that covers the first two slots, all three scans reset to head 0, last 0, sequence number 0 |
| RecoveryProofs.RetreatPastTorn | WL_AT24CX.h:189-219 | a backward search started at a torn record, allowed one step, settles on the valid record before it |
| RecoveryProofs.FixedAfterTornPush | WL_AT24CX.h:189-219 | after any torn push, the corrected scan recovers the last complete record, the torn slot as head and the sequence number of the torn push |
| RecoveryProofs.Init2AfterTornPush | WL_AT24CX.h:189-219 | after a torn push, wl_init2 recovers the last complete record, except that it halts when the torn record is in slot 0 and breaks the chain there; the slot past the ring must not continue the last or the torn record when that sits in the last slot |
| RecoveryProofs.Init1TornMid | WL_AT24CX.h:101-123 | after a torn push into a slot other than 0, wl_init recovers the last complete record, unless its wiped-memory test fires; the slot past the ring must not continue the torn record when that is in the last slot |
| RecoveryProofs.Init1TornWrap | WL_AT24CX.h:101-123 | after a torn push into slot 0, wl_init steps back around the ring to the last slot, provided the slot past the ring does not continue it |
| RecoveryProofs.Init1AfterTornPush | WL_AT24CX.h:75-132 | after a torn push, wl_init recovers the last complete record, except that it resets when the last record is in slot 0 and the slots after it look wiped; same condition on the slot past the ring as wl_init2 |
| RecoveryProofs.RetreatGivesUp | WL_AT24CX.h:189-219 | the do-while loop of wl_init2 halts exactly when none of the slots it may visit, the start and the limit slots behind it, passes the checksum |
| RecoveryProofs.Init2RetreatGivesUp | WL_AT24CX.h:187-219 | started where the forward search stopped, at slot t, the backward search of wl_init2 halts exactly when none of the slots 0 to t passes the checksum |
| RecoveryProofs.Init2GivesUp | WL_AT24CX.h:134-222 | wl_init2 halts exactly when it finds no wiped memory and no slot from 0 to where its forward search stopped passes the checksum |
| RecoveryProofs.Init1RetreatHalts | WL_AT24CX.h:88-124 | the backward loop of wl_init halts exactly when none of the slots it visits passes the checksum and its wiped-memory test never fires |
| RecoveryProofs.Init1RetreatGivesUp | WL_AT24CX.h:88-124 | from a slot of the ring, the backward loop of wl_init halts exactly when no slot of the ring passes the checksum and the slot after the break does not hold the sentinel |
| RecoveryProofs.FixedStaysInRing | WL_AT24CX.h:143-186 | comparing the last slot with slot 0, the forward search always stops inside the ring: fewer than 2^32 consecutive sequence numbers cannot close a circle |
| RecoveryProofs.FixedRetreatGivesUp | WL_AT24CX.h:189-219 | allowed num_of_data - 1 steps, the backward search halts exactly when no slot of the ring passes the checksum |
| RecoveryProofs.FixedGivesUp | WL_AT24CX.h:134-222 | the corrected scan halts exactly when it finds no wiped memory and no slot of the ring passes the checksum |
| Findings.Init1ForgetsFirstPush | WL_AT24CX.h:91-99 | after a wipe and one push, wl_init resets to (0, 0, 0) although slot 0 holds a valid record, which still reads back as the last data; wl_init2 and the corrected scan resume after it |
| Findings.Init1RestartsAtZero | WL_AT24CX.h:91-99 | while slot 1 is erased, a push from the reset state onto slot 0 makes wl_init reset again and leaves slot 1 erased, so a device that restarts after every push writes only slot 0 |
| Findings.TornWrapHalts | WL_AT24CX.h:213-218 | a full ring whose next push into slot 0 is torn makes wl_init2 halt; the corrected scan recovers the last slot |
| Findings.ReadPastRing | WL_AT24CX.h:82-84 | a valid record past the ring that continues the chain makes wl_init halt and wl_init2 settle outside the ring; the corrected scan ignores it |
| Findings.NeighbourStoreIgnored | WL_AT24CX.h:75-222 | a full ring followed on the EEPROM by any record, another store's say, that does not carry the next sequence number is recovered by wl_init and wl_init2 |
| Findings.Init1RunsOff | WL_AT24CX.h:126-129 | when every slot of the ring and the slot past it chain, wl_init reaches its final assert |
| Findings.Init2RunsOff | WL_AT24CX.h:143-187 | when every slot of the ring chains into a valid record past it, wl_init2 settles on that record |
| Store.WlAt24cx.constructor | WL_AT24CX.h:46-69 | the object's configuration is what the constructor derives from its arguments, a ring the scans can walk when num_of_data > 0, and it drives the given EEPROM |
| Store.WlAt24cx.ComputeCrc | WL_AT24CX.h:385-398 | the byte-by-byte XOR loop computes the payload's checksum |
| Store.WlAt24cx.DataIsValid | WL_AT24CX.h:428-435 | true exactly when the stored checksum is the payload's checksum |
| Store.WlAt24cx.WlPeek | WL_AT24CX.h:324-331 | the record decoded from the slot's bytes |
| Store.WlAt24cx.ReadMem | WL_AT24CX.h:268-273 | the payload at slot taddr modulo num_of_data |
| Store.WlAt24cx.WriteMem | WL_AT24CX.h:254-260 | the EEPROM with the payload stored at slot taddr modulo num_of_data; the fields are untouched |
| Store.WlAt24cx.WlGetLastData | WL_AT24CX.h:310-316 | the payload of the record at taddr_last |
| Store.WlAt24cx.WlPush | WL_AT24CX.h:230-246 | the record is written at the head; the sequence number advances in uint32_t; the last slot becomes the old head; the head steps forward around the ring |
| Store.WlAt24cx.WlInit | WL_AT24CX.h:75-132 | the nested loops compute wl_init's outcome, and on success leave the three fields as it resolved them |
| Store.WlAt24cx.FindChainBreak | WL_AT24CX.h:82-127 | the outer loop of wl_init finds the slot where the chain breaks, from which wl_init's outcome is its backward search, or reports that wl_init reaches its final assert; it changes nothing |
| Store.WlAt24cx.WlInitRetreat | WL_AT24CX.h:88-124 | the inner loop of wl_init computes its backward search and sets the fields it resolves to |
| Store.WlAt24cx.WlInit2 | WL_AT24CX.h:134-222 | the two loops compute wl_init2's outcome, and on success leave the three fields as it resolved them |
| Store.WlAt24cx.WlRecover | WL_AT24CX.h:134-222 | the same loops with the corrections compute the corrected scan's outcome and set the fields |
| Store.WlAt24cx.FindBreak | WL_AT24CX.h:143-187 | the forward loop stops where the forward search stops, without changing anything |
| Store.WlAt24cx.RetreatFrom | WL_AT24CX.h:189-219 | the do-while loop computes the backward search and sets the fields it resolves to |
| Store.WlAt24cx.Wipe | WL_AT24CX.h:292-299 | the chunked loop leaves the EEPROM as wipe(size) does |
| Store.WlAt24cx.WipeAll | WL_AT24CX.h:300-303 | wipe() wipes eeprom_size bytes from address 0 |

One detail of `wl_init` is easy to miss. Its wiped-memory test (slot 0,
successor holding the sentinel) sits inside the backward loop, not before
it. The test is repeated at every step with the successor found at the
break, so a backward walk that reaches slot 0 can still end in a reset.
The model keeps the test where the code has it (`Recovery.Init1Retreat`).

## Left out

- The AT24CX driver (I2C addressing, `index`, `pageSize`, page-sized chunking): `write` and `read` are modelled as atomic byte-range updates and reads of an array.
- ESP_LOG output, the `B2S` macro and the percentage that `wipe` logs in floating point: diagnostics only.
- The generic `data_t`: a payload is a fixed-length byte sequence (`dataSize` bytes, at least one). `wl_get_last_data` returning `0` is modelled only as its live branch, because `memisWiped` is never set.
- A store with `num_of_data == 0`: `%` by zero is undefined in C++, so the pushes and the scans require at least one slot.
- Recovery.Init1: the scans read the slot past the ring, so the model requires the EEPROM to hold it (`ScanFits`). A shorter EEPROM would make the driver read past its end.
- Recovery.Init2: same requirement as `Recovery.Init1`.
- Recovery.RecoverFixed: same requirement as `Recovery.Init1`, although the corrected scan never reads that slot.
- An `assert` in the recovery loops that fires aborts the program; the model returns `Halted` instead.
- `assert(wl_enable)` at the start of `wl_init`, `wl_init2` and `wl_push` is a precondition (`layout.wlEnable`), not an outcome: calling them without wear levelling is a programming error, not a state of the EEPROM.
- Store.WlAt24cx.constructor: `taddr_current`, `taddr_last` and `wl_ptr_current` are left unspecified, as the C++ object leaves them until a scan or a push.
- Store.WlAt24cx.WlPush: the sequence number wraps explicitly. The recovery theorems assume it stays below the sentinel (`p + 1 < PointerMax`); a wrap into the sentinel is left unanalysed, as the header leaves it unhandled.
- Store.WlAt24cx.Wipe: the loop counter is a signed `int` in the C++ header, so the model requires the wiped range to stay below 2^31 and to lie on the EEPROM.
- A torn write that happens to leave a valid checksum is not analysed: the torn-push theorems assume the torn record fails the checksum.
- Stores placed end to end (the next one starting at `get_end_addr`): the recovery theorems for `wl_init` and `wl_init2` hold for any contents of the slot past the ring except a record that continues the chain from the ring's last slot (`RecoveryProofs.PastRingBreaks`). That exception is the driver's own defect, shown in the third finding; only the corrected scan's theorems (`FixedAfterPushes`, `FixedAfterTornPush`) need no condition there.
- Concurrent access and two stores whose ranges overlap: the C++ header assumes its caller serialises access.

## Findings

| source | as written | input that shows it | evidently intended | confidence | as-written member | corrected member |
|---|---|---|---|---|---|---|
| WL_AT24CX.h:91-99 | wl_init treats a break at slot 0 whose successor holds the sentinel as wiped memory, without looking at slot 0 | wipe, then one wl_push (slot 0 holds sequence number 0 with a valid checksum, slot 1 is erased), then wl_init: the state resets to (0, 0, 0). The record still reads back as the last data, but the sequence restarts and the next push lands on slot 0 again, so a device that restarts after every push writes only slot 0 and gets no wear levelling | resume at head 1 with sequence number 1, as wl_init2 does by also testing slot 0 (lines 165-170) | not executed | Findings.Init1ForgetsFirstPush | RecoveryProofs.FixedAfterPushes |
| WL_AT24CX.h:213-218 | wl_init2 allows as many backward steps as the forward search advanced, which is none when it stops at slot 0 | a full ring whose last record is in slot num_of_data - 1, and whose next push into slot 0 is cut short after the sequence number but before the checksum: wl_init2 halts | step back around the ring to the last complete record | not executed | Findings.TornWrapHalts | RecoveryProofs.FixedAfterTornPush |
| WL_AT24CX.h:82-84 | both scans compare the last slot with slot num_of_data, which lies past the ring | a full ring ending at slot num_of_data - 1 with sequence number p, followed on the EEPROM by a valid record with sequence number p + 1 (for example a second store chained at get_end_addr): wl_init halts at its final assert, and wl_init2 settles on the foreign record, with head 1 (0 when num_of_data is 1) and sequence number p + 2 | compare the last slot with slot 0 and never read outside the ring | not executed | Findings.ReadPastRing | RecoveryProofs.FixedAfterPushes |

The corrected scan is `Recovery.FixedOf`. It is run on the EEPROM by
`Store.WlAt24cx.WlRecover`, and its behaviour is proved by these lemmas:
- `RecoveryProofs.FixedAfterPushes`: every history is recovered;
- `RecoveryProofs.FixedAfterTornPush`: every torn push is recovered;
- `RecoveryProofs.FixedFresh` and `RecoveryProofs.FixedResetsOnlyWiped`: it resets
  when, and in a ring of more than one slot only when, slots 0 and 1 are erased;
- `RecoveryProofs.PushThenRecover`: push and recovery work together;
- `RecoveryProofs.FixedGivesUp`: it halts only when no slot of the ring
  holds a valid record.
