/** The configuration space of a PCI function (`AbstractPCIDevice`): 256
    bytes, a per-header-type set of read-only bytes, little-endian word and
    dword access, the byte-wise configuration writes that report whether the
    command register was touched, and the masking of writes into a base
    address register that has a region behind it (the sizing protocol of
    section 6.2.5.1 of the PCI Local Bus Specification 3.0). Addresses are
    Java `int`s; an address outside the array raises
    `ArrayIndexOutOfBoundsException`, possibly after earlier bytes of the same
    write have landed. */
module PciDevice {
  import opened Jvm

  const CONFIG_SIZE: int := 256

  /* Register offsets of the type-0 configuration header (section 6.1 of
     the PCI Local Bus Specification 3.0). */
  const PCI_CONFIG_VENDOR_ID: int := 0x00
  const PCI_CONFIG_DEVICE_ID: int := 0x02
  const PCI_CONFIG_COMMAND: int := 0x04
  const PCI_CONFIG_REVISION: int := 0x08
  const PCI_CONFIG_CLASS_DEVICE: int := 0x0a
  const PCI_CONFIG_HEADER: int := 0x0e
  const PCI_CONFIG_BASE_ADDRESS: int := 0x10
  const PCI_CONFIG_EXPANSION_ROM_BASE_ADDRESS: int := 0x30
  const PCI_CONFIG_INTERRUPT_PIN: int := 0x3d

  /** The region slot of the expansion ROM. */
  const PCI_ROM_SLOT: int := 6

  /* Header type values. */
  const PCI_HEADER_SINGLE_FUNCTION: bv8 := 0x00
  const PCI_HEADER_PCI_PCI_BRIDGE: bv8 := 0x01
  const PCI_HEADER_MULTI_FUNCTION: bv8 := 0x80

  /** The device's PCI state. */
  datatype Device = Device(deviceFunctionNumber: int, configuration: seq<bv8>, irq: int, pciRegistered: bool)

  predicate Valid(d: Device) {
    |d.configuration| == CONFIG_SIZE
  }

  predicate InRange(address: int) {
    0 <= address < CONFIG_SIZE
  }

  /** The constructor: an all-zero configuration space, not registered. */
  function New(): (d: Device)
    ensures Valid(d) && !d.pciRegistered
    ensures forall j :: 0 <= j < CONFIG_SIZE ==> d.configuration[j] == 0
  {
    Device(0, seq(CONFIG_SIZE, _ => 0), 0, false)
  }

  /** `deassignDeviceFunctionNumber`: forgets the bus registration and the
      device/function number (-1), leaving the configuration alone. */
  function Deassign(d: Device): (r: Device)
    ensures r.deviceFunctionNumber == -1 && !r.pciRegistered
    ensures r.configuration == d.configuration && r.irq == d.irq
  {
    d.(pciRegistered := false, deviceFunctionNumber := -1)
  }

  /** The header type byte, which selects the read-only table. */
  function Header(d: Device): bv8
    requires Valid(d)
  {
    d.configuration[PCI_CONFIG_HEADER]
  }

  predicate IsStandardHeader(header: bv8) {
    header == PCI_HEADER_SINGLE_FUNCTION || header == PCI_HEADER_MULTI_FUNCTION
  }

  /** The bytes single- and multi-function headers protect, as the
      source lists them. */
  const STANDARD_READ_ONLY: set<int> := {
    PCI_CONFIG_VENDOR_ID, PCI_CONFIG_VENDOR_ID + 1, PCI_CONFIG_DEVICE_ID, PCI_CONFIG_DEVICE_ID + 1,
    PCI_CONFIG_REVISION, PCI_CONFIG_REVISION + 1, PCI_CONFIG_CLASS_DEVICE, PCI_CONFIG_CLASS_DEVICE + 1,
    PCI_CONFIG_HEADER,
    PCI_CONFIG_BASE_ADDRESS, PCI_CONFIG_BASE_ADDRESS + 0x01, PCI_CONFIG_BASE_ADDRESS + 0x02,
    PCI_CONFIG_BASE_ADDRESS + 0x03, PCI_CONFIG_BASE_ADDRESS + 0x04, PCI_CONFIG_BASE_ADDRESS + 0x05,
    PCI_CONFIG_BASE_ADDRESS + 0x06, PCI_CONFIG_BASE_ADDRESS + 0x07, PCI_CONFIG_BASE_ADDRESS + 0x08,
    PCI_CONFIG_BASE_ADDRESS + 0x09, PCI_CONFIG_BASE_ADDRESS + 0x0a, PCI_CONFIG_BASE_ADDRESS + 0x0b,
    PCI_CONFIG_BASE_ADDRESS + 0x0c, PCI_CONFIG_BASE_ADDRESS + 0x0d, PCI_CONFIG_BASE_ADDRESS + 0x0e,
    PCI_CONFIG_BASE_ADDRESS + 0x0f, PCI_CONFIG_BASE_ADDRESS + 0x10, PCI_CONFIG_BASE_ADDRESS + 0x11,
    PCI_CONFIG_BASE_ADDRESS + 0x12, PCI_CONFIG_BASE_ADDRESS + 0x13, PCI_CONFIG_BASE_ADDRESS + 0x14,
    PCI_CONFIG_BASE_ADDRESS + 0x15, PCI_CONFIG_BASE_ADDRESS + 0x16, PCI_CONFIG_BASE_ADDRESS + 0x17,
    PCI_CONFIG_EXPANSION_ROM_BASE_ADDRESS, PCI_CONFIG_EXPANSION_ROM_BASE_ADDRESS + 1,
    PCI_CONFIG_EXPANSION_ROM_BASE_ADDRESS + 2, PCI_CONFIG_EXPANSION_ROM_BASE_ADDRESS + 3,
    PCI_CONFIG_INTERRUPT_PIN}

  /** The bytes every other header type (the PCI-to-PCI bridge among them)
      protects, as the source lists them. */
  const OTHER_READ_ONLY: set<int> := {
    PCI_CONFIG_VENDOR_ID, PCI_CONFIG_VENDOR_ID + 1, PCI_CONFIG_DEVICE_ID, PCI_CONFIG_DEVICE_ID + 1,
    PCI_CONFIG_REVISION, PCI_CONFIG_REVISION + 1, PCI_CONFIG_CLASS_DEVICE, PCI_CONFIG_CLASS_DEVICE + 1,
    PCI_CONFIG_HEADER, 0x38, 0x39, 0x3a, 0x3b, PCI_CONFIG_INTERRUPT_PIN}

  /** `checkConfigWrite`: whether a byte of the configuration space may be
      written, by the table the header type selects. */
  predicate CheckConfigWrite(header: bv8, address: int) {
    address !in (if IsStandardHeader(header) then STANDARD_READ_ONLY else OTHER_READ_ONLY)
  }

  /** The read-only bytes described register by register: the identity
      dword, the revision/class dword, the header type byte and the
      interrupt pin always; the 24 bytes of base address registers and the
      ROM dword for single- and multi-function headers; the reserved dword
      at 0x38 otherwise. */
  predicate ReadOnly(header: bv8, address: int) {
    || PCI_CONFIG_VENDOR_ID <= address < PCI_CONFIG_VENDOR_ID + 4
    || PCI_CONFIG_REVISION <= address < PCI_CONFIG_REVISION + 4
    || address == PCI_CONFIG_HEADER
    || address == PCI_CONFIG_INTERRUPT_PIN
    || (IsStandardHeader(header) &&
          (PCI_CONFIG_BASE_ADDRESS <= address < PCI_CONFIG_BASE_ADDRESS + 4 * 6
           || PCI_CONFIG_EXPANSION_ROM_BASE_ADDRESS <= address < PCI_CONFIG_EXPANSION_ROM_BASE_ADDRESS + 4))
    || (!IsStandardHeader(header) && 0x38 <= address < 0x3c)
  }

  /** The write check refuses exactly the read-only bytes; in particular the
      header type byte can never be written, so the table in force never
      changes. */
  lemma CheckConfigWriteRefusesReadOnly(header: bv8, address: int)
    ensures CheckConfigWrite(header, address) <==> !ReadOnly(header, address)
    ensures !CheckConfigWrite(header, PCI_CONFIG_HEADER)
  {
  }

  /** `configReadByte`. */
  function ConfigReadByte(d: Device, address: int): (r: Result<bv8>)
    requires Valid(d)
    ensures r.Ok? <==> InRange(address)
    ensures r.Throw? ==> r.exc == ArrayIndexOutOfBounds
  {
    if InRange(address) then Ok(d.configuration[address]) else Throw(ArrayIndexOutOfBounds)
  }

  /** `configReadWord`: the byte at `address + 1` above the byte at
      `address`. */
  function ConfigReadWord(d: Device, address: int): (r: Result<bv16>)
    requires Valid(d)
    ensures r.Ok? <==> InRange(address) && InRange(address + 1)
  {
    var high := ConfigReadByte(d, address + 1);
    if high.Throw? then Throw(high.exc)
    else
      var low := ConfigReadByte(d, address);
      if low.Throw? then Throw(low.exc)
      else Ok(JoinBytes(high.value, low.value))
  }

  /** A little-endian word from its two bytes. */
  function JoinBytes(high: bv8, low: bv8): bv16 {
    ((high as bv16) << 8) | low as bv16
  }

  /** `configReadLong`: the word at `address + 2` above the word at
      `address`. */
  function ConfigReadLong(d: Device, address: int): (r: Result<bv32>)
    requires Valid(d)
    ensures r.Ok? <==> 0 <= address && address + 3 < CONFIG_SIZE
  {
    var high := ConfigReadWord(d, address + 2);
    if high.Throw? then Throw(high.exc)
    else
      var low := ConfigReadWord(d, address);
      if low.Throw? then Throw(low.exc)
      else Ok(((high.value as bv32) << 16) | low.value as bv32)
  }

  /** The device after a store, and the exception that cut it short, if
      any; bytes stored before the exception stay stored. */
  datatype Written = Written(device: Device, fault: Option<Exc>)

  /** `putConfigByte`. */
  function PutConfigByte(d: Device, address: int, data: bv8): (w: Written)
    requires Valid(d)
    ensures Valid(w.device) && w.device == d.(configuration := w.device.configuration)
    ensures w.fault.None? <==> InRange(address)
    ensures w.fault.Some? ==> w == Written(d, Some(ArrayIndexOutOfBounds))
    ensures w.fault.None? ==> w.device.configuration[address] == data
    ensures forall j :: 0 <= j < CONFIG_SIZE && j != address ==> w.device.configuration[j] == d.configuration[j]
  {
    if InRange(address) then Written(d.(configuration := d.configuration[address := data]), None)
    else Written(d, Some(ArrayIndexOutOfBounds))
  }

  /** `putConfigWord`: the low byte at `address`, then the high byte. */
  function PutConfigWord(d: Device, address: int, data: bv16): (w: Written)
    requires Valid(d)
    ensures Valid(w.device) && w.device == d.(configuration := w.device.configuration)
    ensures w.fault.None? <==> InRange(address) && InRange(address + 1)
    ensures forall j :: 0 <= j < CONFIG_SIZE && j != address && j != address + 1 ==>
      w.device.configuration[j] == d.configuration[j]
  {
    var first := PutConfigByte(d, address, (data & 0xff) as bv8);
    if first.fault.Some? then first
    else PutConfigByte(first.device, address + 1, ((data >> 8) & 0xff) as bv8)
  }

  /** `putConfigLong`: the low word at `address`, then the high word. */
  function PutConfigLong(d: Device, address: int, data: bv32): (w: Written)
    requires Valid(d)
    ensures Valid(w.device) && w.device == d.(configuration := w.device.configuration)
    ensures w.fault.None? <==> 0 <= address && address + 3 < CONFIG_SIZE
    ensures forall j :: 0 <= j < CONFIG_SIZE && !(address <= j < address + 4) ==>
      w.device.configuration[j] == d.configuration[j]
  {
    var first := PutConfigWord(d, address, (data & 0xffff) as bv16);
    if first.fault.Some? then first
    else PutConfigWord(first.device, address + 2, ((data >> 16) & 0xffff) as bv16)
  }

  /** Splitting a word into bytes and joining them again gives it back. */
  lemma WordBytes(data: bv16)
    ensures ((((data >> 8) & 0xff) as bv8 as bv16) << 8) | ((data & 0xff) as bv8 as bv16) == data
  {
  }

  /** Splitting a dword into words and joining them again gives it back. */
  lemma LongWords(data: bv32)
    ensures ((((data >> 16) & 0xffff) as bv16 as bv32) << 16) | ((data & 0xffff) as bv16 as bv32) == data
  {
  }

  /** A word read after a word store at the same address returns the word
      stored: both are little-endian. */
  lemma PutThenReadWord(d: Device, address: int, data: bv16)
    requires Valid(d) && InRange(address) && InRange(address + 1)
    ensures ConfigReadWord(PutConfigWord(d, address, data).device, address) == Ok(data)
  {
    WordBytes(data);
  }

  /** A dword read after a dword store at the same address returns the
      dword stored. */
  lemma PutThenReadLong(d: Device, address: int, data: bv32)
    requires Valid(d) && 0 <= address && address + 3 < CONFIG_SIZE
    ensures ConfigReadLong(PutConfigLong(d, address, data).device, address) == Ok(data)
  {
    var w := PutConfigLong(d, address, data).device;
    var low := (data & 0xffff) as bv16;
    var high := ((data >> 16) & 0xffff) as bv16;
    PutLongWords(d, address, data);
    ReadLongOfWords(w, address, high, low);
    JoinWords(high, low, data);
  }

  /** After a dword store, each of its words reads back. */
  lemma PutLongWords(d: Device, address: int, data: bv32)
    requires Valid(d) && 0 <= address && address + 3 < CONFIG_SIZE
    ensures var w := PutConfigLong(d, address, data).device;
      && ConfigReadWord(w, address) == Ok((data & 0xffff) as bv16)
      && ConfigReadWord(w, address + 2) == Ok(((data >> 16) & 0xffff) as bv16)
  {
    var first := PutConfigWord(d, address, (data & 0xffff) as bv16);
    PutThenReadWord(d, address, (data & 0xffff) as bv16);
    PutThenReadWord(first.device, address + 2, ((data >> 16) & 0xffff) as bv16);
  }

  /** A dword read is the join of its two word reads. */
  lemma ReadLongOfWords(d: Device, address: int, high: bv16, low: bv16)
    requires Valid(d)
    requires ConfigReadWord(d, address + 2) == Ok(high) && ConfigReadWord(d, address) == Ok(low)
    ensures ConfigReadLong(d, address) == Ok(((high as bv32) << 16) | low as bv32)
  {
  }

  lemma JoinWords(high: bv16, low: bv16, data: bv32)
    requires low == (data & 0xffff) as bv16 && high == ((data >> 16) & 0xffff) as bv16
    ensures ((high as bv32) << 16) | low as bv32 == data
  {
    LongWords(data);
  }

  /** The outcome of a configuration write: the device, the exception if
      one was raised, and (when none was) whether the device's mappings need
      updating. */
  datatype ConfigWritten = ConfigWritten(device: Device, fault: Option<Exc>, remap: bool)

  /** Whether `[address, address + count)` overlaps the two bytes of the
      command register. */
  predicate TouchesCommand(address: int, count: int) {
    address < PCI_CONFIG_COMMAND + 2 && PCI_CONFIG_COMMAND < address + count
  }

  /** `configWriteByte`: stores the byte if it is writable, and asks for a
      remapping when it is a command-register byte. */
  function ConfigWriteByte(d: Device, address: int, data: bv8): (r: ConfigWritten)
    requires Valid(d)
    ensures Valid(r.device) && r.device == d.(configuration := r.device.configuration)
    ensures r.fault.None? <==> InRange(address)
    ensures r.fault.None? ==> (r.remap <==> TouchesCommand(address, 1))
    ensures CheckConfigWrite(Header(d), address) && InRange(address) ==>
      r.device.configuration == d.configuration[address := data]
    ensures !CheckConfigWrite(Header(d), address) ==> r.device == d
  {
    var w := if CheckConfigWrite(Header(d), address) then PutConfigByte(d, address, data) else Written(d, None);
    if w.fault.Some? then ConfigWritten(w.device, w.fault, false)
    else ConfigWritten(w.device, None, address >= PCI_CONFIG_COMMAND && address < PCI_CONFIG_COMMAND + 2)
  }

  /** The bytes of a dword, least significant first: the order in which
      the write loops take them off the bottom of `data` with `>>> 8`. */
  function LongBytes(data: bv32): (bytes: seq<bv8>)
    ensures |bytes| == 4
  {
    [(data & 0xff) as bv8, ((data >> 8) & 0xff) as bv8, ((data >> 16) & 0xff) as bv8, ((data >> 24) & 0xff) as bv8]
  }

  /** The bytes of a word, least significant first. */
  function WordBytesOf(data: bv16): (bytes: seq<bv8>)
    ensures |bytes| == 2
  {
    [(data & 0xff) as bv8, ((data >> 8) & 0xff) as bv8]
  }

  /** The configuration after the byte-wise write of `bytes` at `address`:
      each writable byte of the range inside the array holds its byte
      (nothing is written when `address` is negative), every other byte is
      unchanged. */
  ghost predicate BytesWritten(before: seq<bv8>, after: seq<bv8>, header: bv8, address: int, bytes: seq<bv8>)
    requires |before| == CONFIG_SIZE && |after| == CONFIG_SIZE
  {
    forall j :: 0 <= j < CONFIG_SIZE ==>
      after[j] == if 0 <= address <= j < address + |bytes| && CheckConfigWrite(header, j)
                  then bytes[j - address] else before[j]
  }

  /** The byte-wise write loop of `configWriteWord` and `configWriteLong`:
      each byte is checked and stored separately, and an index outside the
      array stops the loop with the earlier bytes already stored. */
  method WriteBytes(d: Device, address: int, bytes: seq<bv8>) returns (w: Written)
    requires Valid(d)
    ensures Valid(w.device) && w.device == d.(configuration := w.device.configuration)
    ensures w.fault.None? <==> |bytes| == 0 || (0 <= address && address + |bytes| <= CONFIG_SIZE)
    ensures w.fault.Some? ==> w.fault.value == ArrayIndexOutOfBounds
    ensures BytesWritten(d.configuration, w.device.configuration, Header(d), address, bytes)
  {
    var header := Header(d);
    var config := d.configuration;
    var modAddress := address;
    var i := 0;
    while i < |bytes|
      invariant 0 <= i <= |bytes|
      invariant modAddress == address + i
      invariant |config| == CONFIG_SIZE && config[PCI_CONFIG_HEADER] == header
      invariant i > 0 ==> 0 <= address && address + i <= CONFIG_SIZE
      invariant BytesWritten(d.configuration, config, header, address, bytes[..i])
    {
      var stored := StoreIfWritable(config, modAddress, bytes[i]);
      if stored.None? {
        BytesWrittenBeyondArray(d.configuration, config, header, address, bytes, i);
        return Written(d.(configuration := config), Some(ArrayIndexOutOfBounds));
      }
      BytesWrittenStep(d.configuration, config, stored.value, header, address, bytes, i);
      config := stored.value;
      modAddress := modAddress + 1;
      i := i + 1;
    }
    assert bytes[..i] == bytes;
    w := Written(d.(configuration := config), None);
  }

  /** One iteration of the write loop: `checkConfigWrite`, then
      `putConfigByte` if it allows; `None` when the store indexes outside the
      array. The header type byte is never written. */
  function StoreIfWritable(config: seq<bv8>, address: int, data: bv8): (r: Option<seq<bv8>>)
    requires |config| == CONFIG_SIZE
    ensures r.None? <==> !InRange(address)
    ensures r.Some? ==> |r.value| == CONFIG_SIZE && r.value[PCI_CONFIG_HEADER] == config[PCI_CONFIG_HEADER]
    ensures r.Some? ==> r.value == if CheckConfigWrite(config[PCI_CONFIG_HEADER], address)
                                  then config[address := data] else config
  {
    var header := config[PCI_CONFIG_HEADER];
    CheckConfigWriteRefusesReadOnly(header, address);
    if CheckConfigWrite(header, address) then
      if InRange(address) then Some(config[address := data]) else None
    else Some(config)
  }

  /** One more byte of the loop: the `i`-th byte of the range, stored if
      writable. */
  lemma BytesWrittenStep(original: seq<bv8>, before: seq<bv8>, after: seq<bv8>, header: bv8,
                         address: int, bytes: seq<bv8>, i: nat)
    requires |original| == CONFIG_SIZE && |before| == CONFIG_SIZE && i < |bytes|
    requires 0 <= address && InRange(address + i)
    requires BytesWritten(original, before, header, address, bytes[..i])
    requires after == if CheckConfigWrite(header, address + i) then before[address + i := bytes[i]] else before
    ensures |after| == CONFIG_SIZE
    ensures BytesWritten(original, after, header, address, bytes[..i + 1])
  {
    forall j | 0 <= j < CONFIG_SIZE
      ensures after[j] == if 0 <= address <= j < address + i + 1 && CheckConfigWrite(header, j)
                          then bytes[..i + 1][j - address] else original[j]
    {
      if 0 <= address <= j < address + i {
        assert bytes[..i + 1][j - address] == bytes[..i][j - address];
      }
    }
  }

  /** When the loop meets an index outside the array, no further byte of the
      range could have landed anyway. */
  lemma BytesWrittenBeyondArray(original: seq<bv8>, config: seq<bv8>, header: bv8,
                                address: int, bytes: seq<bv8>, i: nat)
    requires |original| == CONFIG_SIZE && |config| == CONFIG_SIZE
    requires i <= |bytes| && !InRange(address + i)
    requires i > 0 ==> 0 <= address && address + i <= CONFIG_SIZE
    requires BytesWritten(original, config, header, address, bytes[..i])
    ensures BytesWritten(original, config, header, address, bytes)
  {
    forall j | 0 <= j < CONFIG_SIZE
      ensures config[j] == if 0 <= address <= j < address + |bytes| && CheckConfigWrite(header, j)
                           then bytes[j - address] else original[j]
    {
      if 0 <= address <= j < address + i {
        assert bytes[..i][j - address] == bytes[j - address];
      }
    }
  }

  /** `configWriteWord`: two bytes, low first. */
  method ConfigWriteWord(d: Device, address: int, data: bv16) returns (r: ConfigWritten)
    requires Valid(d)
    ensures Valid(r.device)
    ensures r.fault.None? <==> 0 <= address && address + 2 <= CONFIG_SIZE
    ensures r.fault.None? ==> (r.remap <==> TouchesCommand(address, 2))
    ensures BytesWritten(d.configuration, r.device.configuration, Header(d), address, WordBytesOf(data))
  {
    var w := WriteBytes(d, address, WordBytesOf(data));
    var remap := address + 2 > PCI_CONFIG_COMMAND && address < PCI_CONFIG_COMMAND + 2;
    r := ConfigWritten(w.device, w.fault, w.fault.None? && remap);
  }

  /** An I/O region a base address register maps: its size (a Java
      `long`) and its type bits. */
  datatype Region = Region(size: int, regionType: int)

  /** Whether a dword write at `address` starts inside one of the six base
      address registers or the expansion ROM register. */
  predicate InBarRange(address: int) {
    || (PCI_CONFIG_BASE_ADDRESS <= address < PCI_CONFIG_BASE_ADDRESS + 4 * 6)
    || (PCI_CONFIG_EXPANSION_ROM_BASE_ADDRESS <= address < PCI_CONFIG_EXPANSION_ROM_BASE_ADDRESS + 4)
  }

  /** The region slot a register address belongs to. */
  function RegionIndex(address: int): (index: int)
    requires InBarRange(address)
    ensures 0 <= index <= PCI_ROM_SLOT
  {
    if address >= PCI_CONFIG_EXPANSION_ROM_BASE_ADDRESS then PCI_ROM_SLOT
    else (address - PCI_CONFIG_BASE_ADDRESS) / 4
  }

  /** The value a base address register keeps from a write, split at the
      region's size: above it the address bits of the data (with any type
      bits there), below it exactly the region's type bits. The ROM register
      keeps the address bits and, below the size, only the enable bit 0. */
  function BarValue(index: int, region: Region, data: bv32): (v: bv32)
    ensures index != PCI_ROM_SLOT ==>
      v == ((data | Low32(region.regionType)) & !Low32(region.size - 1))
           | (Low32(region.regionType) & Low32(region.size - 1))
    ensures index == PCI_ROM_SLOT ==>
      v == (data & !Low32(region.size - 1)) | (data & Low32(region.size - 1) & 1)
  {
    var low := Low32(region.size - 1);
    var t := Low32(region.regionType);
    if index == PCI_ROM_SLOT then
      RomBits(data, low);
      data & (!low | 1)
    else
      BarBits(data, low, t);
      (data & !low) | t
  }

  /** The bit algebra of `BarValue` for a base address register, for any
      size mask `low` and type `t`. */
  lemma BarBits(data: bv32, low: bv32, t: bv32)
    ensures (data & !low) | t == ((data | t) & !low) | (t & low)
  {
  }

  /** The same for the expansion ROM register. */
  lemma RomBits(data: bv32, low: bv32)
    ensures data & (!low | 1) == (data & !low) | (data & low & 1)
  {
  }

  /** `configWriteLong`. A write into a base address register (or the ROM
      register) whose region exists is masked and stored whole, bypassing
      the read-only check, and always asks for a remapping; any other dword
      is written byte by byte. `regions` stands for `getIORegion`. */
  method ConfigWriteLong(d: Device, address: int, data: bv32, regions: int -> Option<Region>)
    returns (r: ConfigWritten)
    requires Valid(d)
    ensures Valid(r.device)
    ensures InBarRange(address) && regions(RegionIndex(address)).Some? ==>
      && r.fault.None? && r.remap
      && r.device == PutConfigLong(d, address, BarValue(RegionIndex(address), regions(RegionIndex(address)).value, data)).device
    ensures !(InBarRange(address) && regions(RegionIndex(address)).Some?) ==>
      && (r.fault.None? <==> 0 <= address && address + 4 <= CONFIG_SIZE)
      && (r.fault.None? ==> (r.remap <==> TouchesCommand(address, 4)))
      && BytesWritten(d.configuration, r.device.configuration, Header(d), address, LongBytes(data))
  {
    if InBarRange(address) {
      var index := RegionIndex(address);
      var region := regions(index);
      if region.Some? {
        var w := PutConfigLong(d, address, BarValue(index, region.value, data));
        return ConfigWritten(w.device, None, true);
      }
    }
    var w := WriteBytes(d, address, LongBytes(data));
    var remap := address + 4 > PCI_CONFIG_COMMAND && address < PCI_CONFIG_COMMAND + 2;
    r := ConfigWritten(w.device, w.fault, w.fault.None? && remap);
  }

  /** Base address register sizing: writing all ones to a base address
      register that has a region and reading it back gives the complement
      of `size - 1` with the region's type in the low bits; for a size that
      is a power of two, the low bits then spell out the size. */
  lemma BarSizing(d: Device, bar: int, region: Region)
    requires Valid(d) && 0 <= bar < 6
    ensures var address := PCI_CONFIG_BASE_ADDRESS + 4 * bar;
      var written := PutConfigLong(d, address, BarValue(bar, region, 0xffff_ffff)).device;
      ConfigReadLong(written, address) == Ok(!Low32(region.size - 1) | Low32(region.regionType))
  {
    var address := PCI_CONFIG_BASE_ADDRESS + 4 * bar;
    PutThenReadLong(d, address, BarValue(bar, region, 0xffff_ffff));
  }

  /** Whatever is written to a base address register, its type bits stay
      set and the bits below the region's size are exactly the type bits. */
  lemma BarKeepsType(index: int, region: Region, data: bv32)
    requires index != PCI_ROM_SLOT
    ensures BarValue(index, region, data) & Low32(region.regionType) == Low32(region.regionType)
    ensures BarValue(index, region, data) & Low32(region.size - 1)
            == Low32(region.regionType) & Low32(region.size - 1)
  {
    TypeBits(data, Low32(region.size - 1), Low32(region.regionType));
  }

  lemma TypeBits(data: bv32, low: bv32, t: bv32)
    ensures ((data & !low) | t) & t == t
    ensures ((data & !low) | t) & low == t & low
  {
  }

  /** Expansion ROM sizing: writing all ones to the ROM register of a
      device with a ROM region reads back the complement of `size - 1`
      together with the enable bit 0, and no type bits. */
  lemma RomSizing(d: Device, region: Region)
    requires Valid(d)
    ensures var address := PCI_CONFIG_EXPANSION_ROM_BASE_ADDRESS;
      var written := PutConfigLong(d, address, BarValue(PCI_ROM_SLOT, region, 0xffff_ffff)).device;
      ConfigReadLong(written, address) == Ok(!Low32(region.size - 1) | 1)
  {
    PutThenReadLong(d, PCI_CONFIG_EXPANSION_ROM_BASE_ADDRESS, BarValue(PCI_ROM_SLOT, region, 0xffff_ffff));
  }

  /** A configuration write, whichever path it takes, never alters a
      read-only byte unless it goes through a base address register that has
      a region. */
  lemma ByteWritesKeepReadOnly(d: Device, after: seq<bv8>, address: int, bytes: seq<bv8>, j: int)
    requires Valid(d) && |after| == CONFIG_SIZE
    requires BytesWritten(d.configuration, after, Header(d), address, bytes)
    requires 0 <= j < CONFIG_SIZE && ReadOnly(Header(d), j)
    ensures after[j] == d.configuration[j]
  {
    CheckConfigWriteRefusesReadOnly(Header(d), j);
  }
}
