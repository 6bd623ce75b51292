# ADS127L11 driver core in Dafny

A model of two parts of a driver for the ADS127L11, a single-channel
delta-sigma ADC read over SPI:

- **The CRC-8 engine** (`crc.dfy`, module `Crc`). The bitwise
  `calculateCRC` is most-significant-bit first, non-reflected and has no
  final XOR. `initTable` builds a 256-entry lookup table and `lookupCRC`
  uses it. `getCRC` picks one of the two at build time, and `initCRC` sets
  the `initialized` flag. The module's static state (the table, the flag)
  is the class `CrcEngine`, and each C function is one of its methods;
  those with loops (`calculateCRC`, `initTable`, `lookupCRC`) carry loop
  invariants. The methods are proved against a pure fold, `BitwiseCrc`,
  a bit at a time. The lemmas about that fold:
  - the table and bitwise versions agree;
  - chaining over a concatenation equals one pass;
  - a message followed by its own CRC byte checks to 0;
  - any corruption inside one byte of such a frame is caught.
- **The frame-format types and register map** (`ads_core.dfy`, module
  `AdsCore`):
  - `DataMode`: the eight output-data modes `ads127l11_data_mode_t`, with
    their codes, flags and documented frame sizes.
  - `ModeCfg`: the configuration byte `ads127l11_mode_cfg_t`. It has a
    flags view and a 3-bit `data_mode` view, written as explicit bit masks.
  - `Ads127l11`: the instance `ads127l11_t`, a class holding the register
    array and the configuration snapshot. `get_register_val`,
    `write_register`, `read_register`, `setup` and `read_data` are its
    methods.

`ctypes.dfy` (module `CTypes`) holds `uint8_t`, `int32_t` and an `Option`
type. Bytes and CRC words are `bv8`.

The polynomial `CRC_POLYNOMIAL` is a parameter of `CrcEngine`, because
`crc.h` is not part of this model. Every CRC property holds for every
polynomial, with one exception: error detection needs the x^0 term, which
`HasUnitTerm` states. `registers.h` is not part of this model either. So
the register count, the addresses of CONFIG1..CONFIG4 and the way the
configuration snapshot follows from those registers are parameters of
`Ads127l11`. `ads_core.c` and `ads_hal.h` are not part of this model. The
SPI bus therefore appears only as the outcome of each transfer, passed to
the method that performs it. For writes this is whether it succeeded; for
reads it is the byte received, or none.

## Model

| member | source | states |
|---|---|---|
| `Crc.CrcEngine.CalculateCrc` | src/crc.c:172-204 | The nested byte loop and bit loop (mask 0x80 down to 0x01) return exactly `BitwiseCrc`: each data bit shifts the register left and XORs in the polynomial when that bit and the register MSB differ. |
| `Crc.CrcEngine.InitTable` | src/crc.c:121-130 | Afterwards, entry `i` is the CRC of the single byte `i` from seed 0x00, for every `i` in 0..255. |
| `Crc.CrcEngine.LookupCrc` | src/crc.c:145-154 | Given a built table, one lookup per byte at index register XOR byte returns the table fold `TableCrc`. Every index is within the 256 entries. |
| `Crc.CrcEngine.GetCrc` | src/crc.c:97-107 | Returns the CRC `BitwiseCrc` of the first `numberBytes` bytes in every build. With `CRC_CALCULATION` defined the bitwise path returns first and the table is untouched. Otherwise the table is built on demand and is complete afterwards, so the result is the same whether or not `initCRC` ran. The `initialized` flag is never changed. |
| `Crc.CrcEngine.InitCrc` | src/crc.c:70-76 | When `CRC_LOOKUP` is defined (`hasTable`), the table is built and `initialized` set, also in a build that defines both macros. Without `CRC_LOOKUP` nothing changes. |
| `Crc.CrcEngine.constructor` | src/crc.c:45-47 | A 256-entry table, `initialized` false, and the two build flags as given, at least one of them set. |
| `Crc.ShiftBitsDifference` | src/crc.c:188-200 | Two bit-loop runs whose registers differ exactly as their data bytes do take the same branch at every bit. Their registers then differ by that amount shifted left `n` times. |
| `Crc.ByteCrcTable` | src/crc.c:151 | A byte step from any register equals the seed-0 table entry at register XOR byte. |
| `Crc.TableCrcIsCrc` | src/crc.c:97-107 | The table-driven and bitwise CRCs agree on every input and seed, so both build options of `getCRC` return the same value. |
| `Crc.CrcEmpty` | src/crc.c:179-203 | With zero bytes, both CRCs return the initial value unchanged. |
| `Crc.CrcSingleByte` | src/crc.c:127-128 | The CRC of the one-byte message `[b]` is one byte step of `b` from the seed. |
| `Crc.CrcChain` | src/crc.c:160-165 | Chaining: the CRC of `a + b` from a seed equals the CRC of `b` seeded with the partial result for `a`. |
| `Crc.ShiftBitsZero` | src/crc.c:188-200 | Zero data bits keep a zero register at zero. |
| `Crc.SelfCheck` | src/crc.c:88-92 | A message followed by its own CRC byte, checked with the same seed, gives 0 ("no error"). |
| `Crc.ZeroBitsInjective` | src/crc.c:188-200 | If the polynomial has its x^0 term, zero data bits map different registers to different registers. |
| `Crc.ByteCrcInjective` | src/crc.c:121-130 | If the polynomial has its x^0 term, the 256 table entries are pairwise different. |
| `Crc.ByteCrcDistinct` | src/crc.c:182-201 | If the polynomial has its x^0 term, two byte steps differ whenever register XOR byte differs. |
| `Crc.ByteChangeChangesCrc` | src/crc.c:182-201 | If the polynomial has its x^0 term, replacing any one byte by a different byte changes the CRC. |
| `Crc.ByteErrorChangesCrc` | src/crc.c:182-201 | If the polynomial has its x^0 term, flipping any nonzero set of bits in one byte changes the CRC. A single-bit flip is one case. |
| `Crc.FrameErrorDetected` | src/crc.c:88-92 | If the polynomial has its x^0 term, the check on a message-plus-CRC frame catches any corruption confined to one byte, the CRC byte included: the result is not 0. |
| `Crc.LookupIndexInRange` | src/crc.c:151 | The lookup index `crc ^ dataBytes[i]` lies in 0..255. |
| `AdsCore.CodeRoundTrip` | src/ads_core.h:11-22 | Every mode's code fits the 3-bit field 0..7 and maps back to that mode. |
| `AdsCore.ModeOfCodeRoundTrip` | src/ads_core.h:11-22 | Every code 0..7 names a mode with that code, so there are exactly eight modes. |
| `AdsCore.CodeFromFlags` | src/ads_core.h:13-21 | A mode's code is status + 2 * crc + 4 * is_16_bit, which is the enum order starting at 0b000. |
| `AdsCore.FlagsDetermineMode` | src/ads_core.h:13-21 | Two modes with the same status, CRC and resolution flags are the same mode. |
| `AdsCore.FrameLengthClosedForm` | src/ads_core.h:13-21 | The documented frame size is 3 (24-bit) or 2 (16-bit) sample bytes, plus one byte each for status and CRC when enabled. It is always in 2..5. |
| `AdsCore.CfgViewsAgree` | src/ads_core.h:32-47 | The 3-bit `data_mode` view of the configuration byte equals status_byte_en + 2 * crc_en + 4 * is_16_bit from the flags view. |
| `AdsCore.ActiveModeFlags` | src/ads_core.h:32-47 | The mode named by `data_mode` has exactly the flags view's status, CRC and resolution settings. |
| `AdsCore.ActiveFrameLength` | src/ads_core.h:11-47 | The active mode's frame size follows from the configuration flags alone. |
| `AdsCore.StoredAfterWritten` | src/ads_core.h:84-100 | After a write to an existing address, the stored entry for that address is the value written. |
| `AdsCore.WrittenLeavesOthers` | src/ads_core.h:84-88 | A write changes no other entry and not the size of the map. |
| `AdsCore.Ads127l11.constructor` | src/ads_core.h:50-55 | The register map has exactly the given number of byte entries, at most 256 because addresses are `uint8_t`. The CONFIG1..CONFIG4 addresses exist and are distinct. The snapshot starts zeroed. |
| `AdsCore.Ads127l11.GetRegisterVal` | src/ads_core.h:96-100 | Returns `Stored` of the register map at the address: the entry for an existing address, or none for a missing one. It performs no transfer and changes nothing, so after `WriteRegister` succeeds, `StoredAfterWritten` and `WrittenLeavesOthers` say what it returns. |
| `AdsCore.Ads127l11.WriteRegister` | src/ads_core.h:84-88 | The map entry becomes the written value exactly when the address exists and the transfer succeeded. Otherwise the map is unchanged, and the configuration snapshot is never touched. |
| `AdsCore.Ads127l11.ReadRegister` | src/ads_core.h:90-94 | The byte received becomes both the result and the map entry. A failed transfer or a missing address returns none and changes nothing. The snapshot is never touched. |
| `AdsCore.Ads127l11.Setup` | src/ads_core.h:57-71 | Returns true exactly when all four configuration writes succeeded. Each configuration register then holds its value, or its old value if its write failed, and no other register changes. The snapshot is derived from the four values on success and kept otherwise. |
| `AdsCore.Ads127l11.FrameLength` | src/ads_core.h:13-21 | The frame size in the active configuration is 2..5 bytes: (16-bit ? 2 : 3) + status + CRC. |
| `AdsCore.Ads127l11.ReadData` | src/ads_core.h:73-77 | Returns the frame's sample as a signed 32-bit value and accepts a null detail pointer. When the pointer is not null, its `data` field equals the returned sample and it holds the frame's status and CRC bytes. |

Notes on the code as written:
- `getCRC` builds the table when `initialized` is false but never sets the
  flag (src/crc.c:104). Until `initCRC` is called, every lookup call
  rebuilds the table. The result is still the correct CRC (`GetCrc` keeps
  `initialized` as it was), so this costs time but not correctness.
- The header declares `ads127l11_write_register` as returning nothing and
  `ads127l11_read_register` as returning a bare `uint8_t`. The model
  returns the success of a write and an `Option` for a read, so that
  `setup` can say whether it succeeded and a failed read is visible. What
  the C functions do on a failed transfer or a missing address is in
  `ads_core.c`, which is not part of this model.
- `ads127l11_get_register_val` also returns a bare `uint8_t`
  (src/ads_core.h:100). The model returns an `Option`, none for an address
  beyond the register map, because what the C function returns there is in
  `ads_core.c`.
- The comment on `is_16_bit` (src/ads_core.h:38) says "24 bit resolution is
  enabled", which contradicts the field's name and the mode enum, where the
  codes with that bit set (4..7) are the `RES_16` modes. The model follows
  the name and the enum: the bit set means 16-bit samples.

## Left out

- The SPI transport, chip-select and reset pins, and delays (`ads_hal.h`). These are I/O. Each transfer is an outcome parameter of the method that performs it.
- The values of `CRC_POLYNOMIAL` and `CRC_INITIAL_SEED` (`crc.h`). The polynomial is a constructor parameter and the seed is each call's `initialValue`.
- A `CRCWORD` wider than 8 bits. The register is modelled as 8 bits, as the MSB test at bit 7 assumes (src/crc.c:192 marks the 16-bit case as not handled).
- A build with neither `CRC_LOOKUP` nor `CRC_CALCULATION` defined. `getCRC` then returns no value, so the `CrcEngine` constructor requires at least one of `hasTable` (`CRC_LOOKUP`) and `calculation` (`CRC_CALCULATION`).
- `initialized` as shared state under concurrency. It is modelled as single-threaded.
- Register addresses, the register count and the bit layout of the configuration registers (`registers.h`). They are constructor parameters of `Ads127l11`, so `setup`'s derivation of `cfg` is a parameter too.
- `AdsCore.Ads127l11.ReadData`: does not decode frames. Byte offsets, sign extension and CRC verification of a sample live in `ads_core.c`, which is not part of this model. The method receives the frame already split into fields. It does not select the transfer length either; `Ads127l11.FrameLength` states that length.
- `ads127l11_read_raw_24bit_crc_off_status_off`, `reset_by_command`, `reset_by_pattern`, `set_gain` and `set_offset`. Their bodies are in `ads_core.c`, which is not part of this model.
- `AdsCore.Ads127l11.Setup`: whether setup stops at the first failed write, and where the snapshot comes from, are in `ads_core.c`. The model performs all four writes, keeps the old snapshot on failure, and takes the derivation as a parameter.
- C bit-field packing and union aliasing. The two views of `ads127l11_mode_cfg_t` are explicit masks on one byte, and `spi_3_wire` is modelled as bit 3 but nothing uses it.
- `Crc.ByteErrorChangesCrc`, `Crc.FrameErrorDetected`: both require the polynomial's x^0 term, which their proofs use. For a polynomial without it, the model states nothing about error detection.
