/** The fast A20 gate on I/O port 0x92 (`GateA20Handler`). Bit 1 of a write
    sets the A20 line of the physical address space; bit 0 resets the
    processor. A read reports the A20 state in bit 1, with the bytes above
    the first floating high. The address space and the processor are
    uninterpreted: the handler holds the address space's A20 state when one
    is bound, and a write reports whether it reset the processor. */
module GateA20 {
  import opened Jvm
  import opened IoPort

  /** The port the handler answers on. */
  const PORT: int := 0x92

  /** The handler's fields: `space` is the bound physical address space,
      given by its gate state (`None` for null); `cpuBound` says whether a
      processor is bound. */
  datatype Handler = Handler(ioportRegistered: bool, cpuBound: bool, space: Option<bool>)

  /** The constructor: nothing bound. */
  function New(): (h: Handler)
    ensures !Initialised(h)
  {
    Handler(false, false, None)
  }

  /** `initialised`: registered on the I/O bus, with a processor and an
      address space. */
  predicate Initialised(h: Handler) {
    h.ioportRegistered && h.cpuBound && h.space.Some?
  }

  /** `reset`: forgets the registration, the processor and the address
      space. */
  function Reset(h: Handler): (r: Handler)
    ensures !r.ioportRegistered && !r.cpuBound && r.space.None?
    ensures !Initialised(r)
  {
    Handler(false, false, None)
  }

  /** `ioPortsRequested`. */
  function PortsRequested(): (ports: seq<int>)
    ensures forall p :: p in ports <==> p == PORT
  {
    [0x92]
  }

  /** The handler after a write, and whether the processor was reset (or
      the null reference the write ran into). */
  datatype Written = Written(handler: Handler, result: Result<bool>)

  /** `ioPortWriteByte`; `ioPortWriteWord` and `ioPortWriteLong` call it
      with the same data, whatever the width. The gate is set first, so a
      missing processor faults after the A20 line has moved. */
  function IoPortWrite(h: Handler, w: Width, port: int, data: bv32): (r: Written)
    ensures h.space.None? ==> r == Written(h, Throw(NullPointer))
    ensures h.space.Some? ==> r.handler == h.(space := Some(data & 2 != 0))
    ensures h.space.Some? && h.cpuBound ==> r.result == Ok(data & 1 != 0)
    ensures h.space.Some? && !h.cpuBound ==> (r.result.Throw? <==> data & 1 != 0)
  {
    if h.space.None? then Written(h, Throw(NullPointer))
    else
      var h' := h.(space := Some(data & 2 != 0));
      if data & 1 == 0 then Written(h', Ok(false))
      else if h.cpuBound then Written(h', Ok(true))
      else Written(h', Throw(NullPointer))
  }

  /** `ioPortReadByte`, `ioPortReadWord` and `ioPortReadLong`: 0x02 with
      A20 enabled and 0x00 without, ORed with 0xff00 for a word and with
      0xffffff00 for a dword. */
  function IoPortRead(h: Handler, w: Width, port: int): (r: Result<bv32>)
    ensures h.space.None? <==> r == Throw(NullPointer)
    ensures r.Ok? ==> (r.value & 0xff == 0x02 <==> h.space.value) && (r.value & 0xff == 0x02 || r.value & 0xff == 0)
    ensures r.Ok? ==> r.value & !0xff == Ones(w) & !0xff
  {
    if h.space.None? then Throw(NullPointer)
    else
      var b: bv32 := if h.space.value then 0x02 else 0x00;
      match w
      case Byte => Ok(b)
      case Word => Ok(b | 0xff00)
      case Long => Ok(b | 0xffff_ff00)
  }

  /** The gate reads back as written: after any write that found an address
      space, a read reports bit 1 of the data written, at every width. */
  lemma WriteThenRead(h: Handler, w: Width, w': Width, port: int, data: bv32)
    requires h.space.Some?
    ensures var r := IoPortRead(IoPortWrite(h, w, port, data).handler, w', port);
      r.Ok? && r.value & 0xff == data & 2
  {
  }

  /** A write's effect depends only on the low two bits of the data and
      never on the access width or the port. */
  lemma WriteUsesLowBits(h: Handler, w: Width, w': Width, port: int, port': int, data: bv32, data': bv32)
    requires data & 3 == data' & 3
    ensures IoPortWrite(h, w, port, data) == IoPortWrite(h, w', port', data')
  {
    assert (data & 2 == 0) == (data' & 2 == 0) && (data & 1 == 0) == (data' & 1 == 0) by {
      assert data & 2 == (data & 3) & 2 && data' & 2 == (data' & 3) & 2;
      assert data & 1 == (data & 3) & 1 && data' & 1 == (data' & 3) & 1;
    }
  }

  /** Wider reads only add the all-ones padding to the byte read. */
  lemma WideReadsPadByte(h: Handler, port: int)
    requires h.space.Some?
    ensures IoPortRead(h, Word, port).value == IoPortRead(h, Byte, port).value | 0xff00
    ensures IoPortRead(h, Long, port).value == IoPortRead(h, Byte, port).value | 0xffff_ff00
  {
  }
}
