/** The i440FX host bridge (`PCIHostBridge`): PCI configuration mechanism #1
    (section 3.2.2.3.2 of the PCI Local Bus Specification 3.0) on I/O ports
    0xCF8-0xCFF. A dword write to 0xCF8-0xCFB latches the address register;
    while its enable bit (bit 31) is set, accesses to the data ports
    0xCFC-0xCFF go to the bus at the latched address plus the port's low two
    bits. The bus is uninterpreted: reads come from a function given as a
    parameter, and writes are returned as `BusWrite` records. */
module PciHostBridge {
  import opened Jvm
  import opened IoPort
  import P = PciDevice

  /** The bridge's own fields over its PCI configuration space. The bridge
      declares its own `pciRegistered`, separate from the one in the
      configuration-space state. */
  datatype Bridge = Bridge(
    device: P.Device,
    configRegister: bv32,
    busAttached: bool,
    ioportRegistered: bool,
    pciRegistered: bool)

  predicate Valid(b: Bridge) {
    P.Valid(b.device)
  }

  /** The first and the last port of the address register and of the data
      window. */
  const CONFIG_ADDRESS: int := 0xcf8
  const CONFIG_DATA: int := 0xcfc
  const LAST_PORT: int := 0xcff

  /** `autoAssignDeviceFunctionNumber`: the bridge always sits at
      device/function 0 and refuses to be moved. */
  const AUTO_ASSIGN: bool := false

  /** The enable bit of the address register. */
  const ENABLE: bv32 := 0x8000_0000

  predicate IsAddressPort(port: int) {
    CONFIG_ADDRESS <= port < CONFIG_DATA
  }

  predicate IsDataPort(port: int) {
    CONFIG_DATA <= port <= LAST_PORT
  }

  predicate Enabled(b: Bridge) {
    b.configRegister & ENABLE != 0
  }

  /** `ioPortsRequested`. */
  function PortsRequested(): (ports: seq<int>)
    ensures |ports| == 8
    ensures forall i :: 0 <= i < |ports| ==> ports[i] == CONFIG_ADDRESS + i
    ensures forall p :: p in ports <==> IsAddressPort(p) || IsDataPort(p)
  {
    [0xcf8, 0xcf9, 0xcfa, 0xcfb, 0xcfc, 0xcfd, 0xcfe, 0xcff]
  }

  /** The header the constructor and `reset` program: vendor 0x8086 (Intel),
      device 0x1237, revision 0x02, class 0x0600 (host bridge), header type
      0x00. Each store lands inside the array, so none faults. */
  function Identify(d: P.Device): (r: P.Device)
    requires P.Valid(d)
    ensures P.Valid(r) && r == d.(configuration := r.configuration)
    ensures P.ConfigReadWord(r, P.PCI_CONFIG_VENDOR_ID) == Ok(0x8086)
    ensures P.ConfigReadWord(r, P.PCI_CONFIG_DEVICE_ID) == Ok(0x1237)
    ensures P.ConfigReadByte(r, P.PCI_CONFIG_REVISION) == Ok(0x02)
    ensures P.ConfigReadWord(r, P.PCI_CONFIG_CLASS_DEVICE) == Ok(0x0600)
    ensures P.ConfigReadByte(r, P.PCI_CONFIG_HEADER) == Ok(0x00)
    ensures forall j :: 0 <= j < P.CONFIG_SIZE && !IsIdentityByte(j) ==> r.configuration[j] == d.configuration[j]
  {
    var d1 := P.PutConfigWord(d, P.PCI_CONFIG_VENDOR_ID, 0x8086).device;
    var d2 := P.PutConfigWord(d1, P.PCI_CONFIG_DEVICE_ID, 0x1237).device;
    var d3 := P.PutConfigByte(d2, P.PCI_CONFIG_REVISION, 0x02).device;
    var d4 := P.PutConfigWord(d3, P.PCI_CONFIG_CLASS_DEVICE, 0x0600).device;
    var d5 := P.PutConfigByte(d4, P.PCI_CONFIG_HEADER, 0x00).device;
    IdentifyReadsBack(d, d1, d2, d3, d4, d5);
    d5
  }

  /** The bytes `Identify` stores. */
  predicate IsIdentityByte(j: int) {
    0 <= j < 4 || j == P.PCI_CONFIG_REVISION || j == P.PCI_CONFIG_CLASS_DEVICE
    || j == P.PCI_CONFIG_CLASS_DEVICE + 1 || j == P.PCI_CONFIG_HEADER
  }

  lemma IdentifyReadsBack(d: P.Device, d1: P.Device, d2: P.Device, d3: P.Device, d4: P.Device, d5: P.Device)
    requires P.Valid(d)
    requires d1 == P.PutConfigWord(d, P.PCI_CONFIG_VENDOR_ID, 0x8086).device
    requires d2 == P.PutConfigWord(d1, P.PCI_CONFIG_DEVICE_ID, 0x1237).device
    requires d3 == P.PutConfigByte(d2, P.PCI_CONFIG_REVISION, 0x02).device
    requires d4 == P.PutConfigWord(d3, P.PCI_CONFIG_CLASS_DEVICE, 0x0600).device
    requires d5 == P.PutConfigByte(d4, P.PCI_CONFIG_HEADER, 0x00).device
    ensures P.ConfigReadWord(d5, P.PCI_CONFIG_VENDOR_ID) == Ok(0x8086)
    ensures P.ConfigReadWord(d5, P.PCI_CONFIG_DEVICE_ID) == Ok(0x1237)
    ensures P.ConfigReadByte(d5, P.PCI_CONFIG_REVISION) == Ok(0x02)
    ensures P.ConfigReadWord(d5, P.PCI_CONFIG_CLASS_DEVICE) == Ok(0x0600)
    ensures P.ConfigReadByte(d5, P.PCI_CONFIG_HEADER) == Ok(0x00)
  {
    P.PutThenReadWord(d, P.PCI_CONFIG_VENDOR_ID, 0x8086);
    P.PutThenReadWord(d1, P.PCI_CONFIG_DEVICE_ID, 0x1237);
    P.PutThenReadWord(d3, P.PCI_CONFIG_CLASS_DEVICE, 0x0600);
    WordUntouched(d2, d5, P.PCI_CONFIG_VENDOR_ID);
    WordUntouched(d2, d5, P.PCI_CONFIG_DEVICE_ID);
    WordUntouched(d4, d5, P.PCI_CONFIG_CLASS_DEVICE);
  }

  /** A word read sees only its own two bytes. */
  lemma WordUntouched(d: P.Device, e: P.Device, address: int)
    requires P.Valid(d) && P.Valid(e) && P.InRange(address) && P.InRange(address + 1)
    requires d.configuration[address] == e.configuration[address]
    requires d.configuration[address + 1] == e.configuration[address + 1]
    ensures P.ConfigReadWord(d, address) == P.ConfigReadWord(e, address)
  {
    assert P.ConfigReadByte(d, address) == P.ConfigReadByte(e, address);
    assert P.ConfigReadByte(d, address + 1) == P.ConfigReadByte(e, address + 1);
  }

  /** The constructor: the bridge at device/function 0 with its identity
      programmed, nothing registered, no bus, address register 0. */
  function New(): (b: Bridge)
    ensures Valid(b) && !Enabled(b) && !b.busAttached
    ensures b.device.deviceFunctionNumber == 0
    ensures !b.ioportRegistered && !b.pciRegistered && !Initialised(b)
    ensures P.ConfigReadWord(b.device, P.PCI_CONFIG_VENDOR_ID) == Ok(0x8086)
    ensures P.ConfigReadWord(b.device, P.PCI_CONFIG_DEVICE_ID) == Ok(0x1237)
  {
    var d := P.New().(deviceFunctionNumber := 0);
    Bridge(Identify(d), 0, false, false, false)
  }

  /** `initialised`. */
  predicate Initialised(b: Bridge) {
    b.ioportRegistered && b.pciRegistered
  }

  /** `reset`: detaches the bus, clears both registration flags, moves back
      to device/function 0 and reprograms the identity bytes. The address
      register and every other configuration byte keep their values. */
  function Reset(b: Bridge): (r: Bridge)
    requires Valid(b)
    ensures Valid(r) && !r.busAttached && !Initialised(r)
    ensures r.configRegister == b.configRegister
    ensures r.device.deviceFunctionNumber == 0
    ensures r.device.pciRegistered == b.device.pciRegistered && r.device.irq == b.device.irq
    ensures P.ConfigReadWord(r.device, P.PCI_CONFIG_VENDOR_ID) == Ok(0x8086)
    ensures P.ConfigReadWord(r.device, P.PCI_CONFIG_DEVICE_ID) == Ok(0x1237)
    ensures P.ConfigReadByte(r.device, P.PCI_CONFIG_REVISION) == Ok(0x02)
    ensures P.ConfigReadWord(r.device, P.PCI_CONFIG_CLASS_DEVICE) == Ok(0x0600)
    ensures P.ConfigReadByte(r.device, P.PCI_CONFIG_HEADER) == Ok(0x00)
    ensures forall j :: 0 <= j < P.CONFIG_SIZE && !IsIdentityByte(j) ==>
      r.device.configuration[j] == b.device.configuration[j]
  {
    var d := b.device.(deviceFunctionNumber := 0);
    b.(device := Identify(d), busAttached := false, ioportRegistered := false, pciRegistered := false)
  }

  /** `deassignDeviceFunctionNumber`: only logs a warning; the bridge keeps
      its number and registration. */
  function Deassign(b: Bridge): (r: Bridge)
    ensures r == b
  {
    b
  }

  /** A configuration access handed to the bus. `data` is narrowed to the
      width, as the Java casts `(byte)` and `(short)` narrow it. */
  datatype BusWrite = BusWrite(width: Width, address: bv32, data: bv32)

  /** The bus address of a data-port access: the address register ORed with
      the port's low two bits. */
  function BusAddress(b: Bridge, port: int): (a: bv32)
    requires IsDataPort(port)
  {
    b.configRegister | (port - CONFIG_DATA) as bv32
  }

  /** What a port write does: the new bridge state, and the bus write it
      caused, if any. A data-port access with the enable bit set but no bus
      attached dereferences null. */
  datatype PortWrite = PortWrite(bridge: Bridge, result: Result<Option<BusWrite>>)

  /** `ioPortWriteByte`, `ioPortWriteWord` and `ioPortWriteLong`. */
  function IoPortWrite(b: Bridge, w: Width, port: int, data: bv32): (r: PortWrite)
    ensures w == Long && IsAddressPort(port) ==>
      r == PortWrite(b.(configRegister := data), Ok(None))
    ensures !(w == Long && IsAddressPort(port)) ==> r.bridge == b
    ensures IsDataPort(port) && Enabled(b) && b.busAttached ==>
      r.result == Ok(Some(BusWrite(w, BusAddress(b, port), data & Ones(w))))
    ensures IsDataPort(port) && Enabled(b) && !b.busAttached ==> r.result == Throw(NullPointer)
    ensures !(IsDataPort(port) && Enabled(b)) ==> r.result == Ok(None)
  {
    if w == Long && IsAddressPort(port) then PortWrite(b.(configRegister := data), Ok(None))
    else if IsDataPort(port) && Enabled(b) then
      if b.busAttached then PortWrite(b, Ok(Some(BusWrite(w, BusAddress(b, port), data & Ones(w)))))
      else PortWrite(b, Throw(NullPointer))
    else PortWrite(b, Ok(None))
  }

  /** The bus's configuration reads, by width, returning the Java `int`
      the bus answers. */
  type BusRead = (Width, bv32) -> bv32

  /** `ioPortReadByte`, `ioPortReadWord` and `ioPortReadLong`. */
  function IoPortRead(b: Bridge, w: Width, port: int, bus: BusRead): (r: Result<bv32>)
    ensures w == Long && IsAddressPort(port) ==> r == Ok(b.configRegister)
    ensures IsDataPort(port) && Enabled(b) && b.busAttached ==>
      r == Ok(bus(w, BusAddress(b, port)) & Ones(w))
    ensures IsDataPort(port) && Enabled(b) && !b.busAttached ==> r == Throw(NullPointer)
    ensures IsDataPort(port) && !Enabled(b) ==> r == Ok(Ones(w))
    ensures !IsDataPort(port) && !(w == Long && IsAddressPort(port)) ==> r == Ok(Ones(w))
  {
    if IsDataPort(port) then
      if !Enabled(b) then Ok(Ones(w))
      else if b.busAttached then Ok(bus(w, BusAddress(b, port)) & Ones(w))
      else Throw(NullPointer)
    else if w == Long && IsAddressPort(port) then Ok(b.configRegister)
    else Ok(Ones(w))
  }

  /** A dword written to the address register reads back from any of its
      four ports. */
  lemma AddressRegisterRoundTrip(b: Bridge, writePort: int, readPort: int, data: bv32, bus: BusRead)
    requires IsAddressPort(writePort) && IsAddressPort(readPort)
    ensures IoPortRead(IoPortWrite(b, Long, writePort, data).bridge, Long, readPort, bus) == Ok(data)
  {
  }

  /** Byte and word writes never move the address register, and no write to
      the address ports reaches the bus. */
  lemma NarrowWritesIgnored(b: Bridge, w: Width, port: int, data: bv32)
    requires w != Long
    ensures IoPortWrite(b, w, port, data).bridge == b
    ensures IsAddressPort(port) ==> IoPortWrite(b, w, port, data).result == Ok(None)
  {
  }

  /** Byte and word reads fit in their width; with the enable bit clear
      a data-port read floats high. */
  lemma ReadsFitWidth(b: Bridge, w: Width, port: int, bus: BusRead)
    requires w != Long
    ensures var r := IoPortRead(b, w, port, bus);
      r.Ok? ==> r.value & !Ones(w) == 0
  {
    var r := IoPortRead(b, w, port, bus);
    if r.Ok? {
      MaskFits(r.value, w);
    }
  }

  lemma MaskFits(v: bv32, w: Width)
    requires w != Long
    ensures (v & Ones(w)) & !Ones(w) == 0
    ensures Ones(w) & !Ones(w) == 0
  {
  }

  /** Whether a data-port access reaches the bus depends only on the enable
      bit: a disabled bridge is invisible, whatever the address register's
      other bits. */
  lemma EnableBitGates(b: Bridge, w: Width, port: int, data: bv32, bus: BusRead)
    requires IsDataPort(port) && b.busAttached
    ensures IoPortWrite(b, w, port, data).result.value.Some? <==> b.configRegister & ENABLE != 0
    ensures !Enabled(b) ==> IoPortRead(b, w, port, bus) == Ok(Ones(w))
  {
  }

  /** With the address register dword-aligned, as mechanism #1 has software
      write it, the bus address is the register with the port's offset in
      the data window as its low two bits. */
  lemma BusAddressSelectsByte(b: Bridge, port: int)
    requires IsDataPort(port) && b.configRegister & 3 == 0
    ensures BusAddress(b, port) & !3 == b.configRegister
    ensures BusAddress(b, port) & 3 == (port - CONFIG_DATA) as bv32
  {
    var offset := (port - CONFIG_DATA) as bv32;
    assert offset & !3 == 0 && offset & 3 == offset by {
      assert offset == 0 || offset == 1 || offset == 2 || offset == 3;
    }
  }
}
