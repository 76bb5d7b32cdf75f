/** Segment creation: the dispatch from a 64-bit protected-mode descriptor
    to one of the segment classes, the null-memory checks of the other
    factories, and the behaviour of the NULL segment.

    The dispatch follows section 3.4.5 of the Intel 64 and IA-32 Software
    Developer's Manual, Volume 3A: bits 40-43 of a descriptor hold the type
    field and bit 44 the S (descriptor type) flag. With S clear the type is a
    system segment or gate (Table 3-2); with S set it is a data segment
    (type bit 3 clear) or a code segment (type bit 3 set), and type bit 0 is
    the accessed flag (Table 3-1). */
module SegmentFactory {
  import opened Jvm

  /** `DESCRIPTOR_TYPE`: the S flag, bit 44. */
  const DESCRIPTOR_TYPE: bv64 := 0x1000_0000_0000
  /** `SEGMENT_TYPE`: the type field, bits 40-43. */
  const SEGMENT_TYPE: bv64 := 0x0f00_0000_0000

  /** The segment classes the protected-mode factory can instantiate. */
  datatype Variant =
      // system segments and gates
    | Available16BitTSS | LDT | Busy16BitTSS | CallGate16Bit | TaskGate
    | InterruptGate16Bit | TrapGate16Bit | Available32BitTSS | Busy32BitTSS
    | CallGate32Bit | InterruptGate32Bit | TrapGate32Bit
      // data segments
    | ReadOnlyData | ReadOnlyAccessedData | ReadWriteData | ReadWriteAccessedData
    | ExpandDownReadWriteData
      // code segments
    | ExecuteOnlyCode | ExecuteReadCode | ExecuteReadAccessedCode
    | ExecuteOnlyConformingAccessedCode | ExecuteReadConformingCode
    | ExecuteReadConformingAccessedCode

  predicate IsSystem(v: Variant) {
    v.Available16BitTSS? || v.LDT? || v.Busy16BitTSS? || v.CallGate16Bit? || v.TaskGate?
    || v.InterruptGate16Bit? || v.TrapGate16Bit? || v.Available32BitTSS? || v.Busy32BitTSS?
    || v.CallGate32Bit? || v.InterruptGate32Bit? || v.TrapGate32Bit?
  }

  predicate IsCode(v: Variant) {
    v.ExecuteOnlyCode? || v.ExecuteReadCode? || v.ExecuteReadAccessedCode?
    || v.ExecuteOnlyConformingAccessedCode? || v.ExecuteReadConformingCode?
    || v.ExecuteReadConformingAccessedCode?
  }

  predicate IsAccessed(v: Variant) {
    v.ReadOnlyAccessedData? || v.ReadWriteAccessedData? || v.ExecuteReadAccessedCode?
    || v.ExecuteOnlyConformingAccessedCode? || v.ExecuteReadConformingAccessedCode?
  }

  /** The five-bit code the factory switches on: the S flag and the type
      field, shifted down from bit 40. */
  function TypeCode(descriptor: bv64): (code: bv5)
    ensures code as bv64 == (descriptor >> 40) & 0x1f
  {
    ((descriptor & (DESCRIPTOR_TYPE | SEGMENT_TYPE)) >> 40) as bv5
  }

  /** The dispatch depends on bits 40-44 of the descriptor and on nothing else. */
  lemma TypeCodeIgnoresOtherBits(d1: bv64, d2: bv64)
    requires d1 & 0x1f00_0000_0000 == d2 & 0x1f00_0000_0000
    ensures TypeCode(d1) == TypeCode(d2)
  {
    assert (d1 >> 40) & 0x1f == ((d1 & 0x1f00_0000_0000) >> 40) & 0x1f;
    assert (d2 >> 40) & 0x1f == ((d2 & 0x1f00_0000_0000) >> 40) & 0x1f;
  }

  /** The reserved system types: a general-protection fault with error code 0. */
  predicate IsReserved(code: bv5) {
    code == 0x00 || code == 0x08 || code == 0x0a || code == 0x0d
  }

  /** The data and code types the emulator does not implement. */
  predicate IsUnimplemented(code: bv5) {
    code == 0x14 || code == 0x15 || code == 0x17 || code == 0x19 || code == 0x1c
  }

  /** The switch of `createProtectedModeSegment`: a variant, a
      general-protection fault, or a fatal illegal-state error. The system
      types (S flag clear) and the code and data types are decoded by the
      two halves of the switch. */
  function Decode(code: bv5): (r: Result<Variant>)
    ensures r == Throw(GP0) <==> IsReserved(code)
    ensures r.Throw? && r.exc.IllegalState? <==> IsUnimplemented(code)
    ensures r.Ok? <==> !IsReserved(code) && !IsUnimplemented(code)
    ensures r.Ok? ==> (IsSystem(r.value) <==> code < 0x10)
    ensures r.Ok? ==> (IsCode(r.value) <==> code >= 0x18)
    ensures r.Ok? && !IsSystem(r.value) ==> (IsAccessed(r.value) <==> code & 1 == 1)
  {
    if code < 0x10 then DecodeSystem(code) else DecodeSegment(code)
  }

  /** Type codes 0x00-0x0f: the system descriptors, the four reserved ones
      a general-protection fault. */
  function DecodeSystem(code: bv5): (r: Result<Variant>)
    requires code < 0x10
    ensures r == Throw(GP0) <==> IsReserved(code)
    ensures r.Throw? ==> r == Throw(GP0)
    ensures r.Ok? ==> IsSystem(r.value) && !IsCode(r.value)
  {
    match code as int
    case 0x01 => Ok(Available16BitTSS)
    case 0x02 => Ok(LDT)
    case 0x03 => Ok(Busy16BitTSS)
    case 0x04 => Ok(CallGate16Bit)
    case 0x05 => Ok(TaskGate)
    case 0x06 => Ok(InterruptGate16Bit)
    case 0x07 => Ok(TrapGate16Bit)
    case 0x09 => Ok(Available32BitTSS)
    case 0x0b => Ok(Busy32BitTSS)
    case 0x0c => Ok(CallGate32Bit)
    case 0x0e => Ok(InterruptGate32Bit)
    case 0x0f => Ok(TrapGate32Bit)
    case _ => Throw(GP0)
  }

  /** Type codes 0x10-0x1f: the data and code segments, five of them
      unimplemented. */
  function DecodeSegment(code: bv5): (r: Result<Variant>)
    requires code >= 0x10
    ensures r.Throw? <==> IsUnimplemented(code)
    ensures r.Throw? ==> r.exc.IllegalState?
    ensures r.Ok? ==> !IsSystem(r.value)
    ensures r.Ok? ==> (IsCode(r.value) <==> code >= 0x18)
    ensures r.Ok? ==> (IsAccessed(r.value) <==> code & 1 == 1)
  {
    match code as int
    case 0x10 => Ok(ReadOnlyData)
    case 0x11 => Ok(ReadOnlyAccessedData)
    case 0x12 => Ok(ReadWriteData)
    case 0x13 => Ok(ReadWriteAccessedData)
    case 0x14 => Throw(IllegalState("Unimplemented Data Segment: Read-Only, Expand-Down"))
    case 0x15 => Throw(IllegalState("Unimplemented Data Segment: Read-Only, Expand-Down, Accessed"))
    case 0x16 => Ok(ExpandDownReadWriteData)
    case 0x17 => Throw(IllegalState("Unimplemented Data Segment: Read/Write, Expand-Down, Accessed"))
    case 0x18 => Ok(ExecuteOnlyCode)
    case 0x19 => Throw(IllegalState("Unimplemented Code Segment: Execute-Only, Accessed"))
    case 0x1a => Ok(ExecuteReadCode)
    case 0x1b => Ok(ExecuteReadAccessedCode)
    case 0x1c => Throw(IllegalState("Unimplemented Code Segment: Execute-Only, Conforming"))
    case 0x1d => Ok(ExecuteOnlyConformingAccessedCode)
    case 0x1e => Ok(ExecuteReadConformingCode)
    case 0x1f => Ok(ExecuteReadConformingAccessedCode)
    case _ => assert false; Throw(GP0)
  }

  /** The type code each class stands for, read off the Intel type tables:
      an independent inverse of `Decode`. */
  function CodeOf(v: Variant): (code: bv5)
    ensures IsSystem(v) <==> code < 0x10
  {
    match v
    case Available16BitTSS => 0x01
    case LDT => 0x02
    case Busy16BitTSS => 0x03
    case CallGate16Bit => 0x04
    case TaskGate => 0x05
    case InterruptGate16Bit => 0x06
    case TrapGate16Bit => 0x07
    case Available32BitTSS => 0x09
    case Busy32BitTSS => 0x0b
    case CallGate32Bit => 0x0c
    case InterruptGate32Bit => 0x0e
    case TrapGate32Bit => 0x0f
    case ReadOnlyData => 0x10
    case ReadOnlyAccessedData => 0x11
    case ReadWriteData => 0x12
    case ReadWriteAccessedData => 0x13
    case ExpandDownReadWriteData => 0x16
    case ExecuteOnlyCode => 0x18
    case ExecuteReadCode => 0x1a
    case ExecuteReadAccessedCode => 0x1b
    case ExecuteOnlyConformingAccessedCode => 0x1d
    case ExecuteReadConformingCode => 0x1e
    case ExecuteReadConformingAccessedCode => 0x1f
  }

  /** Every class is reachable, from exactly the code the tables give it. */
  lemma DecodeCodeOf(v: Variant)
    ensures Decode(CodeOf(v)) == Ok(v)
  {
  }

  /** Every successful dispatch picks the class whose code was read. */
  lemma CodeOfDecode(code: bv5)
    ensures Decode(code).Ok? ==> CodeOf(Decode(code).value) == code
  {
  }

  /** Distinct implemented codes give distinct classes. */
  lemma DecodeInjective(c1: bv5, c2: bv5)
    requires Decode(c1).Ok? && Decode(c2).Ok? && c1 != c2
    ensures Decode(c1).value != Decode(c2).value
  {
    CodeOfDecode(c1);
    CodeOfDecode(c2);
  }

  /** Where a segment's bounds come from. */
  datatype RealOrigin<M> = FromSelector(selector: int) | FromAncestor(ancestor: Segment<M>)

  /** A segment object as the factory creates it, bound to its memory `M`. */
  datatype Segment<M> =
    | RealMode(memory: M, origin: RealOrigin<M>)
    | Virtual8086(memory: M, selector: int, isCode: bool)
    | DescriptorTable(memory: M, base: int, limit: int)
    | Protected(pmemory: Option<M>, selector: int, descriptor: bv64, variant: Variant)
    | NullSegment

  /** `createRealModeSegment`, either overload: null memory is refused. */
  function CreateRealModeSegment<M>(memory: Option<M>, origin: RealOrigin<M>): (r: Result<Segment<M>>)
    ensures r.Throw? <==> memory.None?
    ensures r.Throw? ==> r.exc == NullPointer
    ensures r.Ok? ==> r.value.RealMode? && r.value.memory == memory.value && r.value.origin == origin
  {
    match memory
    case None => Throw(NullPointer)
    case Some(m) => Ok(RealMode(m, origin))
  }

  function CreateVirtual8086ModeSegment<M>(memory: Option<M>, selector: int, isCode: bool)
    : (r: Result<Segment<M>>)
    ensures r.Throw? <==> memory.None?
    ensures r.Throw? ==> r.exc == NullPointer
    ensures r.Ok? ==> r.value == Virtual8086(memory.value, selector, isCode)
  {
    match memory
    case None => Throw(NullPointer)
    case Some(m) => Ok(Virtual8086(m, selector, isCode))
  }

  function CreateDescriptorTableSegment<M>(memory: Option<M>, base: int, limit: int)
    : (r: Result<Segment<M>>)
    ensures r.Throw? <==> memory.None?
    ensures r.Throw? ==> r.exc == NullPointer
    ensures r.Ok? ==> r.value == DescriptorTable(memory.value, base, limit)
  {
    match memory
    case None => Throw(NullPointer)
    case Some(m) => Ok(DescriptorTable(m, base, limit))
  }

  /** `createProtectedModeSegment`: no null check; the outcome is fixed by
      the type code alone. */
  function CreateProtectedModeSegment<M>(memory: Option<M>, selector: int, descriptor: bv64)
    : (r: Result<Segment<M>>)
    ensures r.Ok? <==> Decode(TypeCode(descriptor)).Ok?
    ensures r.Throw? ==> r.exc == Decode(TypeCode(descriptor)).exc
    ensures r.Ok? ==> r.value == Protected(memory, selector, descriptor, Decode(TypeCode(descriptor)).value)
  {
    match Decode(TypeCode(descriptor))
    case Throw(e) => Throw(e)
    case Ok(v) => Ok(Protected(memory, selector, descriptor, v))
  }

  /** Unlike the other factories, the protected-mode one accepts null memory
      for every implemented type code. */
  lemma ProtectedModeAcceptsNullMemory<M>(selector: int, descriptor: bv64)
    requires !IsReserved(TypeCode(descriptor)) && !IsUnimplemented(TypeCode(descriptor))
    ensures CreateProtectedModeSegment<M>(None, selector, descriptor).Ok?
    ensures CreateRealModeSegment<M>(None, FromSelector(selector)) == Throw(NullPointer)
  {
  }

  /** The segment-object methods the NULL segment overrides. */
  datatype Query =
    | GetType | GetSelector | CheckAddress(offset: int) | TranslateAddressRead(offset: int)
    | TranslateAddressWrite(offset: int) | InvalidateAddress(offset: int)
    | GetBase | GetLimit | GetRawLimit | SetSelector(selector: int) | GetDPL | GetRPL
    | SetRPL(cpl: int) | GetDefaultSizeFlag | IsPresent | IsSystemQuery

  /** The value a segment method returns (`void` methods return `Unit`). */
  datatype Answer = IntAnswer(i: int) | BoolAnswer(b: bool) | Unit

  predicate FaultsOnNull(q: Query) {
    q.GetType? || q.CheckAddress? || q.TranslateAddressRead? || q.TranslateAddressWrite?
    || q.InvalidateAddress?
  }

  predicate FatalOnNull(q: Query) {
    q.GetBase? || q.GetLimit? || q.GetRawLimit? || q.SetSelector? || q.GetDPL? || q.GetRPL?
    || q.SetRPL? || q.GetDefaultSizeFlag?
  }

  /** The text of `getClass().toString()` for the NULL segment class. */
  const NULL_SEGMENT_CLASS: string := "class org.jpc.emulator.processor.SegmentFactory$NullSegment"

  /** The message of the `IllegalStateException` a NULL segment method
      throws: the method's name, then the class. */
  function NullMessage(name: string): (m: string)
    ensures |m| == 13 + |name| + 4 + |NULL_SEGMENT_CLASS|
    ensures m[..13] == "NULL segment " && m[|m| - |NULL_SEGMENT_CLASS|..] == NULL_SEGMENT_CLASS
    ensures m[13..13 + |name|] == name
  {
    "NULL segment " + name + "(): " + NULL_SEGMENT_CLASS
  }

  /** The NULL segment's answer to each method. */
  function NullSegmentCall(q: Query): (r: Result<Answer>)
    ensures r == Throw(GP0) <==> FaultsOnNull(q)
    ensures r.Throw? && r.exc.IllegalState? <==> FatalOnNull(q)
    ensures r.Ok? <==> q.GetSelector? || q.IsPresent? || q.IsSystemQuery?
    ensures q.GetSelector? ==> r == Ok(IntAnswer(0))
    ensures q.IsPresent? ==> r == Ok(BoolAnswer(true))
    ensures q.IsSystemQuery? ==> r == Ok(BoolAnswer(false))
  {
    match q
    case GetType => Throw(GP0)
    case GetSelector => Ok(IntAnswer(0))
    case CheckAddress(_) => Throw(GP0)
    case TranslateAddressRead(_) => Throw(GP0)
    case TranslateAddressWrite(_) => Throw(GP0)
    case InvalidateAddress(_) => Throw(GP0)
    case GetBase => Throw(IllegalState(NullMessage("getBase")))
    case GetLimit => Throw(IllegalState(NullMessage("getLimit")))
    case GetRawLimit => Throw(IllegalState(NullMessage("getRawLimit")))
    case SetSelector(_) => Throw(IllegalState(NullMessage("setSelector")))
    case GetDPL => Throw(IllegalState(NullMessage("getDPL")))
    case GetRPL => Throw(IllegalState(NullMessage("getRPL")))
    case SetRPL(_) => Throw(IllegalState(NullMessage("setRPL")))
    case GetDefaultSizeFlag => Throw(IllegalState(NullMessage("getDefaultSizeFlag")))
    case IsPresent => Ok(BoolAnswer(true))
    case IsSystemQuery => Ok(BoolAnswer(false))
  }
}
