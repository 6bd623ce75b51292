/**
 * The ADS127L11 driver's frame-format types and register map (src/ads_core.h).
 * The header holds declarations only; the model states what its types and
 * doc comments promise. Register addresses, the register count and the
 * bit layout of the configuration registers come from registers.h, which
 * is not part of this model, so they are parameters of the instance.
 */
module AdsCore {
  import opened CTypes

  // ---------------------------------------------------------------------
  // Output data modes (ads127l11_data_mode_t)
  // ---------------------------------------------------------------------

  /** The eight output-frame layouts, in the enum's order (codes 0b000..0b111). */
  datatype DataMode =
    | Res24CrcOffStatusOff
    | Res24CrcOffStatusOn
    | Res24CrcOnStatusOff
    | Res24CrcOnStatusOn
    | Res16CrcOffStatusOff
    | Res16CrcOffStatusOn
    | Res16CrcOnStatusOff
    | Res16CrcOnStatusOn
  {
    /** The enumerator's value. */
    function Code(): nat {
      match this
      case Res24CrcOffStatusOff => 0
      case Res24CrcOffStatusOn => 1
      case Res24CrcOnStatusOff => 2
      case Res24CrcOnStatusOn => 3
      case Res16CrcOffStatusOff => 4
      case Res16CrcOffStatusOn => 5
      case Res16CrcOnStatusOff => 6
      case Res16CrcOnStatusOn => 7
    }

    /** The frame carries a status byte. */
    predicate HasStatus() {
      this in {Res24CrcOffStatusOn, Res24CrcOnStatusOn, Res16CrcOffStatusOn, Res16CrcOnStatusOn}
    }

    /** The frame carries a CRC byte. */
    predicate HasCrc() {
      this in {Res24CrcOnStatusOff, Res24CrcOnStatusOn, Res16CrcOnStatusOff, Res16CrcOnStatusOn}
    }

    /** The sample has 16-bit resolution (24-bit otherwise). */
    predicate Is16Bit() {
      this in {Res16CrcOffStatusOff, Res16CrcOffStatusOn, Res16CrcOnStatusOff, Res16CrcOnStatusOn}
    }

    /** The output frame size in bytes, as each enumerator's comment documents it. */
    function FrameLength(): nat {
      match this
      case Res24CrcOffStatusOff => 3
      case Res24CrcOffStatusOn => 4
      case Res24CrcOnStatusOff => 4
      case Res24CrcOnStatusOn => 5
      case Res16CrcOffStatusOff => 2
      case Res16CrcOffStatusOn => 3
      case Res16CrcOnStatusOff => 3
      case Res16CrcOnStatusOn => 4
    }
  }

  /** The mode with enumerator value `code`. */
  function ModeOfCode(code: nat): DataMode
    requires code < 8
  {
    if code == 0 then Res24CrcOffStatusOff
    else if code == 1 then Res24CrcOffStatusOn
    else if code == 2 then Res24CrcOnStatusOff
    else if code == 3 then Res24CrcOnStatusOn
    else if code == 4 then Res16CrcOffStatusOff
    else if code == 5 then Res16CrcOffStatusOn
    else if code == 6 then Res16CrcOnStatusOff
    else Res16CrcOnStatusOn
  }

  /** 1 for a set flag, 0 otherwise. */
  function Bit(b: bool): nat {
    if b then 1 else 0
  }

  /** Every mode's code fits the 3-bit data_mode field and names that mode back. */
  lemma CodeRoundTrip(m: DataMode)
    ensures m.Code() < 8
    ensures ModeOfCode(m.Code()) == m
  {}

  /** Every 3-bit code names a mode with that code: there are exactly eight modes. */
  lemma ModeOfCodeRoundTrip(code: nat)
    requires code < 8
    ensures ModeOfCode(code).Code() == code
  {}

  /** The enum order puts the status flag at bit 0, CRC at bit 1 and 16-bit resolution at bit 2. */
  lemma CodeFromFlags(m: DataMode)
    ensures m.Code() == Bit(m.HasStatus()) + 2 * Bit(m.HasCrc()) + 4 * Bit(m.Is16Bit())
  {
    match m
    case Res24CrcOffStatusOff =>
    case Res24CrcOffStatusOn =>
    case Res24CrcOnStatusOff =>
    case Res24CrcOnStatusOn =>
    case Res16CrcOffStatusOff =>
    case Res16CrcOffStatusOn =>
    case Res16CrcOnStatusOff =>
    case Res16CrcOnStatusOn =>
  }

  /** The three flags tell the modes apart. */
  lemma FlagsDetermineMode(m: DataMode, n: DataMode)
    requires m.HasStatus() == n.HasStatus() && m.HasCrc() == n.HasCrc() && m.Is16Bit() == n.Is16Bit()
    ensures m == n
  {
    CodeFromFlags(m);
    CodeFromFlags(n);
    CodeRoundTrip(m);
    CodeRoundTrip(n);
  }

  /** Frame length is sample bytes (3 at 24 bits, 2 at 16) plus one per enabled status or CRC byte, 2..5 in all. */
  lemma FrameLengthClosedForm(m: DataMode)
    ensures m.FrameLength() == (if m.Is16Bit() then 2 else 3) + Bit(m.HasStatus()) + Bit(m.HasCrc())
    ensures 2 <= m.FrameLength() <= 5
  {
    match m
    case Res24CrcOffStatusOff =>
    case Res24CrcOffStatusOn =>
    case Res24CrcOnStatusOff =>
    case Res24CrcOnStatusOn =>
    case Res16CrcOffStatusOff =>
    case Res16CrcOffStatusOn =>
    case Res16CrcOnStatusOff =>
    case Res16CrcOnStatusOn =>
  }

  // ---------------------------------------------------------------------
  // Mode configuration (ads127l11_mode_cfg_t): one byte, two views
  // ---------------------------------------------------------------------

  /**
   * The configuration byte. The flags view reads bits 0..3; the data_mode
   * view reads bits 0..2 as one 3-bit code. Bit positions are written out
   * rather than relying on C bit-field packing.
   */
  datatype ModeCfg = ModeCfg(bits: bv8) {
    predicate StatusByteEn() { (bits & 0x01) != 0 }
    predicate CrcEn() { (bits & 0x02) != 0 }
    predicate Is16Bit() { (bits & 0x04) != 0 }
    predicate Spi3Wire() { (bits & 0x08) != 0 }

    /** The 3-bit data_mode field. */
    function DataModeCode(): nat {
      (bits & 0x07) as nat
    }
  }

  /** The two views of the configuration byte agree: data_mode is status + 2*crc + 4*is_16_bit. */
  lemma CfgViewsAgree(cfg: ModeCfg)
    ensures cfg.DataModeCode() == Bit(cfg.StatusByteEn()) + 2 * Bit(cfg.CrcEn()) + 4 * Bit(cfg.Is16Bit())
    ensures cfg.DataModeCode() < 8
  {}

  /** The active mode named by the configuration's data_mode field. */
  function ActiveMode(cfg: ModeCfg): DataMode {
    CfgViewsAgree(cfg);
    ModeOfCode(cfg.DataModeCode())
  }

  /** The active mode has exactly the configuration's status, CRC and resolution flags. */
  lemma ActiveModeFlags(cfg: ModeCfg)
    ensures ActiveMode(cfg).HasStatus() == cfg.StatusByteEn()
    ensures ActiveMode(cfg).HasCrc() == cfg.CrcEn()
    ensures ActiveMode(cfg).Is16Bit() == cfg.Is16Bit()
  {
    CfgViewsAgree(cfg);
    var m := ActiveMode(cfg);
    ModeOfCodeRoundTrip(cfg.DataModeCode());
    CodeFromFlags(m);
  }

  /** The frame length of the active mode, from the configuration flags alone. */
  lemma ActiveFrameLength(cfg: ModeCfg)
    ensures ActiveMode(cfg).FrameLength()
         == (if cfg.Is16Bit() then 2 else 3) + Bit(cfg.StatusByteEn()) + Bit(cfg.CrcEn())
  {
    ActiveModeFlags(cfg);
    FrameLengthClosedForm(ActiveMode(cfg));
  }

  // ---------------------------------------------------------------------
  // The register map as a value
  // ---------------------------------------------------------------------

  /** The entry for `address`, or None when the map has no such register. */
  function Stored(regs: seq<bv8>, address: uint8): Option<bv8> {
    if address as int < |regs| then Some(regs[address]) else None
  }

  /** The map after writing `value` to `address`; an address with no register changes nothing. */
  function Written(regs: seq<bv8>, address: uint8, value: bv8): seq<bv8> {
    if address as int < |regs| then regs[address as int := value] else regs
  }

  /** After a write, the entry for that address is the value written. */
  lemma StoredAfterWritten(regs: seq<bv8>, address: uint8, value: bv8)
    requires address as int < |regs|
    ensures Stored(Written(regs, address, value), address) == Some(value)
  {}

  /** A write changes no other entry and not the size of the map. */
  lemma WrittenLeavesOthers(regs: seq<bv8>, address: uint8, value: bv8, other: uint8)
    requires other != address
    ensures |Written(regs, address, value)| == |regs|
    ensures Stored(Written(regs, address, value), other) == Stored(regs, other)
  {}

  // ---------------------------------------------------------------------
  // The instance (ads127l11_t)
  // ---------------------------------------------------------------------

  /** ads127l11_ch_data_t: the record read_data fills through its optional pointer. */
  class ChannelData {
    var status: bv8
    var crc: bv8
    var data: int32

    constructor ()
      ensures status == 0 && crc == 0 && data == 0
    {
      status, crc, data := 0, 0, 0;
    }
  }

  /** One sample frame as the bus step delivers it, already split into its fields and sign-extended. */
  datatype SampleFrame = SampleFrame(status: bv8, crc: bv8, sample: int32)

  /**
   * A driver instance: the register map `reg` (ADS127L11_NUM_REGISTERS
   * bytes) and the configuration snapshot `cfg`. `configAddress` lists the
   * addresses of CONFIG1..CONFIG4, and `deriveCfg` is how the snapshot
   * follows from the four configuration values; both come from registers.h.
   * The bus is not a field: each transfer's outcome is a parameter of the
   * method that performs it.
   */
  class Ads127l11 {
    const reg: array<bv8>
    const configAddress: seq<uint8>
    const deriveCfg: (bv8, bv8, bv8, bv8) -> ModeCfg
    var cfg: ModeCfg

    /**
     * Every register has a uint8_t address, and the four configuration
     * registers exist and are distinct.
     */
    ghost predicate Valid()
      reads this
    {
      reg.Length <= 0x100 &&
      |configAddress| == 4 &&
      (forall i :: 0 <= i < 4 ==> configAddress[i] as int < reg.Length) &&
      (forall i, j :: 0 <= i < j < 4 ==> configAddress[i] != configAddress[j])
    }

    /** A zeroed instance over an unwritten register map of `numRegisters` bytes. */
    constructor (numRegisters: nat, configAddress: seq<uint8>, deriveCfg: (bv8, bv8, bv8, bv8) -> ModeCfg)
      requires numRegisters <= 0x100
      requires |configAddress| == 4
      requires forall i :: 0 <= i < 4 ==> configAddress[i] as int < numRegisters
      requires forall i, j :: 0 <= i < j < 4 ==> configAddress[i] != configAddress[j]
      ensures Valid() && fresh(reg)
      ensures reg.Length == numRegisters && this.configAddress == configAddress && this.deriveCfg == deriveCfg
      ensures cfg == ModeCfg(0)
    {
      reg := new bv8[numRegisters];
      this.configAddress := configAddress;
      this.deriveCfg := deriveCfg;
      cfg := ModeCfg(0);
    }

    /** get_register_val: the stored entry, from memory only. */
    method GetRegisterVal(address: uint8) returns (v: Option<bv8>)
      ensures v == Stored(reg[..], address)
      ensures v.Some? <==> address as int < reg.Length
    {
      if address as int < reg.Length {
        v := Some(reg[address]);
      } else {
        v := None;
      }
    }

    /**
     * write_register: send `data` to `address`; `transferOk` is the bus
     * outcome. The map entry changes only when the address exists and the
     * transfer succeeded; `ok` reports that.
     */
    method WriteRegister(address: uint8, data: bv8, transferOk: bool) returns (ok: bool)
      modifies reg
      ensures ok <==> transferOk && address as int < reg.Length
      ensures reg[..] == if ok then Written(old(reg[..]), address, data) else old(reg[..])
      ensures forall k :: 0 <= k < reg.Length ==> reg[k] == if ok && k == address as int then data else old(reg[k])
    {
      ok := transferOk && address as int < reg.Length;
      if ok {
        reg[address] := data;
      }
    }

    /**
     * read_register: read `address` over the bus; `received` is what the
     * transfer returned, None when it failed. The value read becomes both
     * the result and the map entry.
     */
    method ReadRegister(address: uint8, received: Option<bv8>) returns (v: Option<bv8>)
      modifies reg
      ensures v == if address as int < reg.Length then received else None
      ensures reg[..] == if v.Some? then Written(old(reg[..]), address, v.value) else old(reg[..])
    {
      if address as int < reg.Length && received.Some? {
        reg[address] := received.value;
        v := received;
      } else {
        v := None;
      }
    }

    /**
     * setup: write CONFIG1..CONFIG4 in order (`transferOk[i]` is the outcome
     * of the i-th write) and report whether all four succeeded. Only then
     * does the configuration snapshot follow from the values written.
     */
    method Setup(config1: bv8, config2: bv8, config3: bv8, config4: bv8, transferOk: seq<bool>) returns (ok: bool)
      requires Valid()
      requires |transferOk| == 4
      modifies this, reg
      ensures ok <==> transferOk[0] && transferOk[1] && transferOk[2] && transferOk[3]
      ensures cfg == if ok then deriveCfg(config1, config2, config3, config4) else old(cfg)
      ensures forall i :: 0 <= i < 4 ==>
        reg[configAddress[i]] == if transferOk[i] then [config1, config2, config3, config4][i] else old(reg[configAddress[i]])
      ensures forall a: uint8 :: a as int < reg.Length && a !in configAddress ==> reg[a] == old(reg[a])
    {
      var ok1 := WriteRegister(configAddress[0], config1, transferOk[0]);
      var ok2 := WriteRegister(configAddress[1], config2, transferOk[1]);
      var ok3 := WriteRegister(configAddress[2], config3, transferOk[2]);
      var ok4 := WriteRegister(configAddress[3], config4, transferOk[3]);
      ok := ok1 && ok2 && ok3 && ok4;
      if ok {
        cfg := deriveCfg(config1, config2, config3, config4);
      }
    }

    /** The frame size read_data transfers in the active mode. */
    function FrameLength(): (n: nat)
      reads this
      ensures 2 <= n <= 5
      ensures n == (if cfg.Is16Bit() then 2 else 3) + Bit(cfg.StatusByteEn()) + Bit(cfg.CrcEn())
    {
      ActiveFrameLength(cfg);
      FrameLengthClosedForm(ActiveMode(cfg));
      ActiveMode(cfg).FrameLength()
    }

    /**
     * read_data: return the frame's sample as a signed 32-bit value and, when
     * `detail` is not null, store the frame's fields there.
     */
    method ReadData(frame: SampleFrame, detail: ChannelData?) returns (sample: int32)
      modifies detail
      ensures sample == frame.sample
      ensures detail != null ==> detail.status == frame.status && detail.crc == frame.crc && detail.data == sample
    {
      sample := frame.sample;
      if detail != null {
        detail.status := frame.status;
        detail.crc := frame.crc;
        detail.data := sample;
      }
    }
  }
}
