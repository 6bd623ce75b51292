/**
 * The driver's CRC-8 engine (src/crc.c): a bitwise, most-significant-bit-
 * first, non-reflected CRC with no final XOR, and a table-driven alternative
 * that is chosen at compile time. The polynomial is a parameter of the model:
 * every property proved here holds for all polynomials, except error
 * detection, which needs the polynomial's x^0 term.
 */
module Crc {
  import opened CTypes

  // ---------------------------------------------------------------------
  // Specification: the CRC as a fold over bits and bytes
  // ---------------------------------------------------------------------

  /** One register update: shift left and XOR in the polynomial when the data bit and the register MSB differ. */
  function BitStep(poly: bv8, crc: bv8, dataBit: bool): bv8 {
    var crcMsb := (crc & 0x80) != 0;
    if dataBit != crcMsb then (crc << 1) ^ poly else crc << 1
  }

  /** The register after the top `n` bits of `e`, most significant first, starting from `crc`. */
  function ShiftBits(poly: bv8, crc: bv8, e: bv8, n: nat): bv8
    decreases n
  {
    if n == 0 then crc else ShiftBits(poly, BitStep(poly, crc, (e & 0x80) != 0), e << 1, n - 1)
  }

  /** The register after all eight bits of `b`, starting from `crc`. */
  function ByteCrc(poly: bv8, crc: bv8, b: bv8): bv8 {
    ShiftBits(poly, crc, b, 8)
  }

  /**
   * The inner bit loop of calculateCRC as written: test the data bit under
   * `bitIndex`, update the register, move the mask one bit right, stop at 0.
   */
  function MaskedBits(poly: bv8, crc: bv8, b: bv8, bitIndex: bv8): bv8
    decreases bitIndex
  {
    if bitIndex == 0 then crc
    else MaskedBits(poly, BitStep(poly, crc, (b & bitIndex) != 0), b, bitIndex >> 1)
  }

  /** The CRC of `data` starting from the seed or partial result `init`. */
  function BitwiseCrc(poly: bv8, data: seq<bv8>, init: bv8): bv8 {
    if |data| == 0 then init
    else ByteCrc(poly, BitwiseCrc(poly, data[..|data| - 1], init), data[|data| - 1])
  }

  /** The CRC as the lookup table computes it: per byte, the seed-0 CRC of register XOR data. */
  function TableCrc(poly: bv8, data: seq<bv8>, init: bv8): bv8 {
    if |data| == 0 then init
    else ByteCrc(poly, 0, TableCrc(poly, data[..|data| - 1], init) ^ data[|data| - 1])
  }

  /** Lookup table entry `i`: the CRC of the single byte `i` from seed 0x00. */
  function TableEntry(poly: bv8, i: int): bv8
    requires 0 <= i < 256
  {
    BitwiseCrc(poly, [i as bv8], 0x00)
  }

  /** The polynomial has its x^0 term (its lowest bit is set). */
  predicate HasUnitTerm(poly: bv8) {
    (poly & 1) == 1
  }

  // ---------------------------------------------------------------------
  // Bit-level facts, each about a handful of 8-bit values
  // ---------------------------------------------------------------------

  /** `x << k` for a shift count of at most 8, written with literal shifts only. */
  function Shl(x: bv8, k: nat): bv8
    requires k <= 8
  {
    if k == 0 then x
    else if k == 1 then x << 1
    else if k == 2 then x << 2
    else if k == 3 then x << 3
    else if k == 4 then x << 4
    else if k == 5 then x << 5
    else if k == 6 then x << 6
    else if k == 7 then x << 7
    else 0
  }

  /** The bit mask `0x80 >> k` for `k` of at most 8. */
  function Mask(k: nat): bv8
    requires k <= 8
  {
    if k == 0 then 0x80
    else if k == 1 then 0x40
    else if k == 2 then 0x20
    else if k == 3 then 0x10
    else if k == 4 then 0x08
    else if k == 5 then 0x04
    else if k == 6 then 0x02
    else if k == 7 then 0x01
    else 0
  }

  /** Two registers differ by exactly the amount their data registers differ by. */
  predicate InStep(r: bv8, e: bv8, s: bv8, f: bv8) {
    r ^ s == e ^ f
  }

  /** `a` and `b` differ by `d`. */
  predicate DiffersBy(a: bv8, b: bv8, d: bv8) {
    a ^ b == d
  }

  lemma BitStepInStep(poly: bv8, r: bv8, e: bv8, s: bv8, f: bv8)
    requires InStep(r, e, s, f)
    ensures InStep(BitStep(poly, r, (e & 0x80) != 0), e << 1, BitStep(poly, s, (f & 0x80) != 0), f << 1)
    ensures BitStep(poly, r, (e & 0x80) != 0) ^ BitStep(poly, s, (f & 0x80) != 0) == (r ^ s) << 1
  {}

  lemma ShlStep(x: bv8, k: nat)
    requires k < 8
    ensures Shl(x << 1, 7 - k) == Shl(x, 8 - k)
    ensures Shl(x, k) << 1 == Shl(x, k + 1)
  {}

  lemma MaskStep(b: bv8, k: nat)
    requires k <= 8
    ensures (Mask(k) != 0) == (k < 8)
    ensures k < 8 ==> Mask(k) >> 1 == Mask(k + 1)
    ensures k < 8 ==> ((b & Mask(k)) != 0) == ((Shl(b, k) & 0x80) != 0)
  {}

  lemma AlignedWithZero(crc: bv8, b: bv8)
    ensures InStep(crc, b, 0, crc ^ b)
    ensures Shl(crc, 8) == 0
  {}

  lemma DiffersByNothing(a: bv8, b: bv8)
    requires DiffersBy(a, b, 0)
    ensures a == b
  {}

  lemma ZeroStep(poly: bv8)
    ensures BitStep(poly, 0, ((0 as bv8) & 0x80) != 0) == 0
    ensures (0 as bv8) << 1 == 0
  {}

  /** With the x^0 term, a zero data bit maps distinct registers to distinct registers. */
  lemma ZeroBitStepInjective(poly: bv8, r: bv8, s: bv8)
    requires HasUnitTerm(poly)
    requires r != s
    ensures BitStep(poly, r, ((0 as bv8) & 0x80) != 0) != BitStep(poly, s, ((0 as bv8) & 0x80) != 0)
    ensures (0 as bv8) << 1 == 0
  {}

  lemma XorFacts(a: bv8, c: bv8, m: bv8)
    ensures a ^ 0 == a
    ensures c ^ c == 0
    ensures m != 0 ==> a ^ (c ^ m) != a ^ c
  {}

  /** The lookup index `crc ^ b` always lies within the 256-entry table, and converts back to the same byte. */
  lemma LookupIndexInRange(crc: bv8, b: bv8)
    ensures 0 <= (crc ^ b) as int < 256
    ensures ((crc ^ b) as int) as bv8 == crc ^ b
  {}

  // ---------------------------------------------------------------------
  // Properties of the specification
  // ---------------------------------------------------------------------

  /**
   * Two runs whose registers differ exactly as their data registers do stay
   * in step: they take the same branch at every bit, and their registers end
   * up differing by the initial difference shifted left by `n`.
   */
  lemma {:induction false} ShiftBitsDifference(poly: bv8, r: bv8, e: bv8, s: bv8, f: bv8, n: nat)
    requires n <= 8
    requires InStep(r, e, s, f)
    ensures DiffersBy(ShiftBits(poly, r, e, n), ShiftBits(poly, s, f, n), Shl(r ^ s, n))
    decreases n
  {
    if n > 0 {
      BitStepInStep(poly, r, e, s, f);
      ShiftBitsDifference(poly, BitStep(poly, r, (e & 0x80) != 0), e << 1, BitStep(poly, s, (f & 0x80) != 0), f << 1, n - 1);
      ShlStep(r ^ s, 8 - n);
    }
  }

  /** A table entry built with seed 0 stands for a whole byte step from any register (src/crc.c:128, 151). */
  lemma ByteCrcTable(poly: bv8, crc: bv8, b: bv8)
    ensures ByteCrc(poly, crc, b) == ByteCrc(poly, 0, crc ^ b)
  {
    AlignedWithZero(crc, b);
    ShiftBitsDifference(poly, crc, b, 0, crc ^ b, 8);
    DiffersByNothing(ByteCrc(poly, crc, b), ByteCrc(poly, 0, crc ^ b));
  }

  /** Zero bits leave a zero register at zero. */
  lemma {:induction false} ShiftBitsZero(poly: bv8, n: nat)
    ensures ShiftBits(poly, 0, 0, n) == 0
    decreases n
  {
    if n > 0 {
      ZeroStep(poly);
      ShiftBitsZero(poly, n - 1);
    }
  }

  /** With the x^0 term, running zero bits through the register is injective. */
  lemma {:induction false} ZeroBitsInjective(poly: bv8, r: bv8, s: bv8, n: nat)
    requires HasUnitTerm(poly)
    requires r != s
    ensures ShiftBits(poly, r, 0, n) != ShiftBits(poly, s, 0, n)
    decreases n
  {
    if n > 0 {
      ZeroBitStepInjective(poly, r, s);
      ZeroBitsInjective(poly, BitStep(poly, r, ((0 as bv8) & 0x80) != 0), BitStep(poly, s, ((0 as bv8) & 0x80) != 0), n - 1);
    }
  }

  /** With the x^0 term, distinct bytes have distinct seed-0 CRCs: a table of 256 different entries. */
  lemma ByteCrcInjective(poly: bv8, a: bv8, b: bv8)
    requires HasUnitTerm(poly)
    requires a != b
    ensures ByteCrc(poly, 0, a) != ByteCrc(poly, 0, b)
  {
    XorFacts(a, 0, 0);
    XorFacts(b, 0, 0);
    ByteCrcTable(poly, a, 0);
    ByteCrcTable(poly, b, 0);
    ZeroBitsInjective(poly, a, b, 8);
  }

  /** A byte step from register `r1` with byte `x1` and one from `r2` with `x2` differ when `r1 ^ x1 != r2 ^ x2`. */
  lemma ByteCrcDistinct(poly: bv8, r1: bv8, x1: bv8, r2: bv8, x2: bv8)
    requires HasUnitTerm(poly)
    requires r1 ^ x1 != r2 ^ x2
    ensures ByteCrc(poly, r1, x1) != ByteCrc(poly, r2, x2)
  {
    ByteCrcTable(poly, r1, x1);
    ByteCrcTable(poly, r2, x2);
    ByteCrcInjective(poly, r1 ^ x1, r2 ^ x2);
  }

  /** One step of the mask-driven loop, at mask `0x80 >> k`. */
  lemma MaskedBitsStep(poly: bv8, c: bv8, b: bv8, k: nat)
    requires k < 8
    ensures MaskedBits(poly, c, b, Mask(k))
         == MaskedBits(poly, BitStep(poly, c, (Shl(b, k) & 0x80) != 0), b, Mask(k + 1))
  {
    MaskStep(b, k);
  }

  /** One step of the shift-driven specification, on `b << k`. */
  lemma ShiftBitsStep(poly: bv8, c: bv8, b: bv8, k: nat)
    requires k < 8
    ensures ShiftBits(poly, c, Shl(b, k), 8 - k)
         == ShiftBits(poly, BitStep(poly, c, (Shl(b, k) & 0x80) != 0), Shl(b, k + 1), 8 - (k + 1))
  {
    ShlStep(b, k);
  }

  /** The mask-driven loop from mask `0x80 >> k` processes the bits of `b << k`. */
  lemma {:induction false} MaskedBitsShifted(poly: bv8, c: bv8, b: bv8, k: nat)
    requires k <= 8
    ensures MaskedBits(poly, c, b, Mask(k)) == ShiftBits(poly, c, Shl(b, k), 8 - k)
    decreases 8 - k
  {
    if k < 8 {
      MaskedBitsStep(poly, c, b, k);
      ShiftBitsStep(poly, c, b, k);
      MaskedBitsShifted(poly, BitStep(poly, c, (Shl(b, k) & 0x80) != 0), b, k + 1);
    } else {
      MaskStep(b, k);
    }
  }

  /** The inner loop of calculateCRC, started at mask 0x80, computes one byte step. */
  lemma MaskedBitsIsByteCrc(poly: bv8, c: bv8, b: bv8)
    ensures MaskedBits(poly, c, b, 0x80) == ByteCrc(poly, c, b)
  {
    MaskedBitsShifted(poly, c, b, 0);
  }

  /** The CRC of one more byte is one more byte step. */
  lemma CrcSnoc(poly: bv8, data: seq<bv8>, i: nat, init: bv8)
    requires i < |data|
    ensures BitwiseCrc(poly, data[..i + 1], init) == ByteCrc(poly, BitwiseCrc(poly, data[..i], init), data[i])
  {
    assert data[..i + 1][..i] == data[..i];
  }

  /** The table CRC of one more byte is one more lookup. */
  lemma TableCrcSnoc(poly: bv8, data: seq<bv8>, i: nat, init: bv8)
    requires i < |data|
    ensures TableCrc(poly, data[..i + 1], init) == ByteCrc(poly, 0, TableCrc(poly, data[..i], init) ^ data[i])
  {
    assert data[..i + 1][..i] == data[..i];
  }

  /** In a built table, the entry at index `x` is the seed-0 byte step of `x`. */
  lemma TableAt(poly: bv8, table: array<bv8>, x: bv8)
    requires table.Length == 256 && forall k :: 0 <= k < 256 ==> table[k] == TableEntry(poly, k)
    ensures 0 <= x as int < 256
    ensures table[x as int] == ByteCrc(poly, 0, x)
  {
    assert (x as int) as bv8 == x;
    CrcSingleByte(poly, x, 0x00);
  }

  /** One iteration of lookupCRC: from the table CRC of `data[..i]`, the entry at the lookup index is the table CRC of `data[..i + 1]`. */
  lemma LookupStep(poly: bv8, table: array<bv8>, data: seq<bv8>, i: nat, init: bv8)
    requires table.Length == 256 && forall k :: 0 <= k < 256 ==> table[k] == TableEntry(poly, k)
    requires i < |data|
    ensures 0 <= (TableCrc(poly, data[..i], init) ^ data[i]) as int < 256
    ensures table[(TableCrc(poly, data[..i], init) ^ data[i]) as int] == TableCrc(poly, data[..i + 1], init)
  {
    TableAt(poly, table, TableCrc(poly, data[..i], init) ^ data[i]);
    TableCrcSnoc(poly, data, i, init);
  }

  /** With zero bytes the CRC is the initial value, unchanged (src/crc.c:147-153, 179-203). */
  lemma CrcEmpty(poly: bv8, init: bv8)
    ensures BitwiseCrc(poly, [], init) == init
    ensures TableCrc(poly, [], init) == init
  {}

  /** A one-byte CRC from seed 0 is the byte step from 0: what each table entry holds (src/crc.c:127-128). */
  lemma CrcSingleByte(poly: bv8, b: bv8, init: bv8)
    ensures BitwiseCrc(poly, [b], init) == ByteCrc(poly, init, b)
  {
    assert [b][..0] == [];
  }

  /** Chaining: the CRC of `a + b` is the CRC of `b` seeded with the partial result for `a` (src/crc.c:86, 165). */
  lemma {:induction false} CrcChain(poly: bv8, a: seq<bv8>, b: seq<bv8>, seed: bv8)
    ensures BitwiseCrc(poly, a + b, seed) == BitwiseCrc(poly, b, BitwiseCrc(poly, a, seed))
    decreases |b|
  {
    if |b| == 0 {
      assert a + b == a;
    } else {
      var b' := b[..|b| - 1];
      assert (a + b)[..|a + b| - 1] == a + b';
      assert (a + b)[|a + b| - 1] == b[|b| - 1];
      CrcChain(poly, a, b', seed);
    }
  }

  /** The table-driven CRC and the bitwise CRC agree on every input (src/crc.c:97-107, 145-154, 172-204). */
  lemma {:induction false} TableCrcIsCrc(poly: bv8, data: seq<bv8>, init: bv8)
    ensures TableCrc(poly, data, init) == BitwiseCrc(poly, data, init)
    decreases |data|
  {
    if |data| > 0 {
      var prefix := data[..|data| - 1];
      TableCrcIsCrc(poly, prefix, init);
      ByteCrcTable(poly, BitwiseCrc(poly, prefix, init), data[|data| - 1]);
    }
  }

  /** Self-check: a message followed by its own CRC byte has CRC 0, "no error" (src/crc.c:88-92). */
  lemma SelfCheck(poly: bv8, data: seq<bv8>, seed: bv8)
    ensures BitwiseCrc(poly, data + [BitwiseCrc(poly, data, seed)], seed) == 0
  {
    var c := BitwiseCrc(poly, data, seed);
    var frame := data + [c];
    assert frame[..|frame| - 1] == data;
    ByteCrcTable(poly, c, c);
    XorFacts(0, c, 0);
    ShiftBitsZero(poly, 8);
  }

  /** With the x^0 term, a different byte from the same register gives a different register. */
  lemma ByteCrcDistinctByData(poly: bv8, r: bv8, x: bv8, y: bv8)
    requires HasUnitTerm(poly)
    requires x != y
    ensures ByteCrc(poly, r, x) != ByteCrc(poly, r, y)
  {
    assert r ^ x != r ^ y;
    ByteCrcDistinct(poly, r, x, r, y);
  }

  /** With the x^0 term, the same byte from different registers gives different registers. */
  lemma ByteCrcDistinctByRegister(poly: bv8, r1: bv8, r2: bv8, x: bv8)
    requires HasUnitTerm(poly)
    requires r1 != r2
    ensures ByteCrc(poly, r1, x) != ByteCrc(poly, r2, x)
  {
    assert r1 ^ x != r2 ^ x;
    ByteCrcDistinct(poly, r1, x, r2, x);
  }

  /** With the x^0 term, replacing any one byte of the data by a different byte changes the CRC. */
  lemma {:induction false} ByteChangeChangesCrc(poly: bv8, data: seq<bv8>, seed: bv8, j: nat, y: bv8)
    requires HasUnitTerm(poly)
    requires j < |data|
    requires y != data[j]
    ensures BitwiseCrc(poly, data[j := y], seed) != BitwiseCrc(poly, data, seed)
    decreases |data|
  {
    var bad := data[j := y];
    var last := |data| - 1;
    var prefix, badPrefix := data[..last], bad[..last];
    if j == last {
      assert badPrefix == prefix;
      ByteCrcDistinctByData(poly, BitwiseCrc(poly, prefix, seed), y, data[last]);
    } else {
      assert badPrefix == prefix[j := y];
      ByteChangeChangesCrc(poly, prefix, seed, j, y);
      ByteCrcDistinctByRegister(poly, BitwiseCrc(poly, badPrefix, seed), BitwiseCrc(poly, prefix, seed), data[last]);
    }
  }

  /**
   * With the x^0 term, flipping any nonzero set of bits `m` within one byte
   * (a single-bit error is one case) changes the CRC.
   */
  lemma ByteErrorChangesCrc(poly: bv8, data: seq<bv8>, seed: bv8, j: nat, m: bv8)
    requires HasUnitTerm(poly)
    requires j < |data|
    requires m != 0
    ensures BitwiseCrc(poly, data[j := data[j] ^ m], seed) != BitwiseCrc(poly, data, seed)
  {
    assert data[j] ^ m != data[j];
    ByteChangeChangesCrc(poly, data, seed, j, data[j] ^ m);
  }

  /**
   * The check of src/crc.c:91-92 catches every corruption confined to one
   * byte of a message-plus-CRC frame: its CRC is then not 0.
   */
  lemma FrameErrorDetected(poly: bv8, data: seq<bv8>, seed: bv8, j: nat, m: bv8)
    requires HasUnitTerm(poly)
    requires j <= |data|
    requires m != 0
    ensures
      var frame := data + [BitwiseCrc(poly, data, seed)];
      BitwiseCrc(poly, frame[j := frame[j] ^ m], seed) != 0
  {
    SelfCheck(poly, data, seed);
    ByteErrorChangesCrc(poly, data + [BitwiseCrc(poly, data, seed)], seed, j, m);
  }

  // ---------------------------------------------------------------------
  // The engine: the state crc.c keeps in static variables
  // ---------------------------------------------------------------------

  /**
   * The CRC module's state. `poly` is CRC_POLYNOMIAL. The two build macros
   * are two flags: `hasTable` says whether CRC_LOOKUP is defined (the table,
   * the flag and initCRC's work exist), `calculation` whether CRC_CALCULATION
   * is defined (getCRC then returns the bitwise result first). `table` is
   * crcLookupTable[256] and `initialized` the flag initCRC sets.
   */
  class CrcEngine {
    const poly: bv8
    const hasTable: bool
    const calculation: bool
    const table: array<bv8>
    var initialized: bool

    /** Every table entry holds its byte's CRC. */
    ghost predicate TableBuilt()
      reads table
      requires table.Length == 256
    {
      forall i :: 0 <= i < 256 ==> table[i] == TableEntry(poly, i)
    }

    /**
     * The table has 256 entries, at least one macro is defined, and once
     * `initialized` is set every entry is built.
     */
    ghost predicate Valid()
      reads this, table
    {
      table.Length == 256 && (hasTable || calculation) && (initialized ==> TableBuilt())
    }

    constructor (poly: bv8, hasTable: bool, calculation: bool)
      requires hasTable || calculation
      ensures Valid() && fresh(table)
      ensures this.poly == poly && this.hasTable == hasTable && this.calculation == calculation && !initialized
    {
      this.poly := poly;
      this.hasTable := hasTable;
      this.calculation := calculation;
      table := new bv8[256];
      initialized := false;
    }

    /**
     * initCRC: when CRC_LOOKUP is defined, build the table and set
     * `initialized` (also in a build that defines both macros, where getCRC
     * never reads the table); otherwise do nothing.
     */
    method InitCrc()
      requires Valid()
      modifies this, table
      ensures Valid()
      ensures hasTable ==> initialized && TableBuilt()
      ensures !hasTable ==> initialized == old(initialized) && table[..] == old(table[..])
    {
      if hasTable {
        InitTable();
        initialized := true;
      }
    }

    /**
     * getCRC: the CRC of the first `numberBytes` bytes from `initialValue`.
     * With CRC_CALCULATION defined the bitwise method returns first;
     * otherwise the table (built on demand) is used.
     */
    method GetCrc(dataBytes: seq<bv8>, numberBytes: uint8, initialValue: bv8) returns (crc: bv8)
      requires Valid()
      requires numberBytes as int <= |dataBytes|
      modifies table
      ensures Valid()
      ensures crc == BitwiseCrc(poly, dataBytes[..numberBytes], initialValue)
      ensures !calculation ==> TableBuilt()
      ensures calculation ==> table[..] == old(table[..])
    {
      if calculation {
        crc := CalculateCrc(dataBytes, numberBytes, initialValue);
      } else {
        if !initialized {
          InitTable();
        }
        crc := LookupCrc(dataBytes, numberBytes, initialValue);
        TableCrcIsCrc(poly, dataBytes[..numberBytes], initialValue);
      }
    }

    /** initTable: fill every entry with the CRC of its index byte from seed 0x00. */
    method InitTable()
      requires table.Length == 256
      modifies table
      ensures TableBuilt()
    {
      for i := 0 to 256
        invariant forall k :: 0 <= k < i ==> table[k] == TableEntry(poly, k)
      {
        var value: bv8 := i as bv8;
        var entry := CalculateCrc([value], 1, 0x00);
        table[i] := entry;
      }
    }

    /** lookupCRC: one table lookup per byte, at index register XOR data byte. */
    method LookupCrc(dataBytes: seq<bv8>, numberBytes: uint8, initialValue: bv8) returns (crc: bv8)
      requires table.Length == 256 && TableBuilt()
      requires numberBytes as int <= |dataBytes|
      ensures crc == TableCrc(poly, dataBytes[..numberBytes], initialValue)
    {
      crc := initialValue;
      var i := 0;
      assert dataBytes[..0] == [];
      while i < numberBytes as int
        invariant 0 <= i <= numberBytes as int
        invariant crc == TableCrc(poly, dataBytes[..i], initialValue)
      {
        LookupStep(poly, table, dataBytes, i, initialValue);
        var index := (crc ^ dataBytes[i]) as int;
        crc := table[index];
        i := i + 1;
      }
    }

    /** calculateCRC: the bitwise CRC, eight register updates per byte, mask 0x80 down to 0x01. */
    method CalculateCrc(dataBytes: seq<bv8>, numberBytes: uint8, initialValue: bv8) returns (crc: bv8)
      requires numberBytes as int <= |dataBytes|
      ensures crc == BitwiseCrc(poly, dataBytes[..numberBytes], initialValue)
    {
      crc := initialValue;
      var byteIndex := 0;
      while byteIndex < numberBytes as int
        invariant 0 <= byteIndex <= numberBytes as int
        invariant crc == BitwiseCrc(poly, dataBytes[..byteIndex], initialValue)
      {
        ghost var start := crc;
        var bitIndex: bv8 := 0x80;
        while bitIndex != 0
          invariant MaskedBits(poly, crc, dataBytes[byteIndex], bitIndex) == MaskedBits(poly, start, dataBytes[byteIndex], 0x80)
          decreases bitIndex
        {
          var dataMsb := (dataBytes[byteIndex] & bitIndex) != 0;
          var crcMsb := (crc & 0x80) != 0;
          crc := crc << 1;
          if dataMsb != crcMsb {
            crc := crc ^ poly;
          }
          bitIndex := bitIndex >> 1;
        }
        MaskedBitsIsByteCrc(poly, start, dataBytes[byteIndex]);
        CrcSnoc(poly, dataBytes, byteIndex, initialValue);
        byteIndex := byteIndex + 1;
      }
    }
  }
}
