/** The memory accessors every segment inherits: an offset is translated by
    the segment (which may fault), then the access goes to the bound address
    space, which may be null and whose own accesses may throw (a page fault
    of the linear address space, say). The address space and the
    translations are uninterpreted: an `AddressSpace<S>` gives the accessors
    over a memory state `S`, and a segment contributes its two translation
    functions. */
module Segment {
  import opened Jvm

  /** A store's outcome: the memory afterwards, and the exception that
      interrupted it, if any. A fault does not undo earlier writes. */
  datatype Stored<S> = Stored(memory: S, fault: Option<Exc>)

  /** The accessors of an address space whose contents are an `S`. Each
      may throw; a store that throws may have changed part of the memory. */
  datatype AddressSpace<!S> = AddressSpace(
    getByte: (S, bv32) -> Result<bv8>,
    getWord: (S, bv32) -> Result<bv16>,
    getDoubleWord: (S, bv32) -> Result<bv32>,
    setByte: (S, bv32, bv8) -> Stored<S>,
    setWord: (S, bv32, bv16) -> Stored<S>,
    setDoubleWord: (S, bv32, bv32) -> Stored<S>)

  /** A segment: the address space it is bound to (`memory`, possibly null)
      and its read and write translations of a 32-bit offset to a linear
      address. */
  datatype View<!S> = View(
    memory: Option<S>,
    translateRead: bv32 -> Result<bv32>,
    translateWrite: bv32 -> Result<bv32>)

  /** `setAddressSpace`: rebinds the memory (null included) and nothing else. */
  function SetAddressSpace<S>(seg: View<S>, memory: Option<S>): (r: View<S>)
    ensures r.memory == memory
    ensures r.translateRead == seg.translateRead && r.translateWrite == seg.translateWrite
  {
    seg.(memory := memory)
  }

  /** A read at the translated address: Java evaluates the argument
      `translateAddressRead(offset)` before dereferencing `memory`, so a
      translation fault comes first, then the null check, then whatever the
      address space throws. */
  function Read<S, T>(get: (S, bv32) -> Result<T>, memory: Option<S>, address: Result<bv32>): (r: Result<T>)
    ensures address.Throw? ==> r == Throw(address.exc)
    ensures address.Ok? && memory.None? ==> r == Throw(NullPointer)
    ensures address.Ok? && memory.Some? ==> r == get(memory.value, address.value)
    ensures r.Ok? <==> address.Ok? && memory.Some? && get(memory.value, address.value).Ok?
  {
    match address
    case Throw(e) => Throw(e)
    case Ok(a) =>
      match memory
      case None => Throw(NullPointer)
      case Some(m) => get(m, a)
  }

  /** A store at the translated address, in the same order as `Read`. */
  function Write<S, T>(store: (S, bv32, T) -> Stored<S>, memory: Option<S>, address: Result<bv32>, data: T): (r: Stored<Option<S>>)
    ensures address.Throw? ==> r == Stored(memory, Some(address.exc))
    ensures address.Ok? && memory.None? ==> r == Stored(None, Some(NullPointer))
    ensures address.Ok? && memory.Some? ==>
      var st := store(memory.value, address.value, data);
      r == Stored(Some(st.memory), st.fault)
    ensures r.fault.None? <==> address.Ok? && memory.Some? && store(memory.value, address.value, data).fault.None?
  {
    match address
    case Throw(e) => Stored(memory, Some(e))
    case Ok(a) =>
      match memory
      case None => Stored(None, Some(NullPointer))
      case Some(m) =>
        var st := store(m, a, data);
        Stored(Some(st.memory), st.fault)
  }

  function GetByte<S>(space: AddressSpace<S>, seg: View<S>, offset: bv32): (r: Result<bv8>)
    ensures seg.translateRead(offset).Throw? ==> r == Throw(seg.translateRead(offset).exc)
    ensures seg.translateRead(offset).Ok? && seg.memory.None? ==> r == Throw(NullPointer)
    ensures seg.translateRead(offset).Ok? && seg.memory.Some? ==>
      r == space.getByte(seg.memory.value, seg.translateRead(offset).value)
  {
    Read(space.getByte, seg.memory, seg.translateRead(offset))
  }

  function GetWord<S>(space: AddressSpace<S>, seg: View<S>, offset: bv32): (r: Result<bv16>)
    ensures seg.translateRead(offset).Throw? ==> r == Throw(seg.translateRead(offset).exc)
    ensures seg.translateRead(offset).Ok? && seg.memory.None? ==> r == Throw(NullPointer)
    ensures seg.translateRead(offset).Ok? && seg.memory.Some? ==>
      r == space.getWord(seg.memory.value, seg.translateRead(offset).value)
  {
    Read(space.getWord, seg.memory, seg.translateRead(offset))
  }

  function GetDoubleWord<S>(space: AddressSpace<S>, seg: View<S>, offset: bv32): (r: Result<bv32>)
    ensures seg.translateRead(offset).Throw? ==> r == Throw(seg.translateRead(offset).exc)
    ensures seg.translateRead(offset).Ok? && seg.memory.None? ==> r == Throw(NullPointer)
    ensures seg.translateRead(offset).Ok? && seg.memory.Some? ==>
      r == space.getDoubleWord(seg.memory.value, seg.translateRead(offset).value)
  {
    Read(space.getDoubleWord, seg.memory, seg.translateRead(offset))
  }

  /** Java's `(int)` narrowing of a `long`: the low 32 bits. */
  function IntOf(x: bv64): bv32 {
    (x & 0xffff_ffff) as bv32
  }

  /** The bits Java's widening of an `int` to a `long` adds above bit 31:
      copies of the sign bit. */
  function SignBits(x: bv32): bv64 {
    if x < 0x8000_0000 then 0 else 0xffff_ffff_0000_0000
  }

  /** Java's widening of an `int` to a `long`: sign extension. */
  function SignExtend(x: bv32): bv64 {
    (x as bv64) | SignBits(x)
  }

  /** The sign bits a widening adds are cleared by the mask `0xFFFFFFFFL`
      and shifted out by `<< 32`. */
  lemma WideningBitsVanish(x: bv32)
    ensures 0xffff_ffff & SignExtend(x) == x as bv64
    ensures SignExtend(x) << 32 == (x as bv64) << 32
  {
    var s := SignBits(x);
    assert s & 0xffff_ffff == 0;
    assert s << 32 == 0;
  }

  /** The expression of `getQuadWord` that combines two dwords: the low one
      widened and masked with `0xFFFFFFFFL`, the high one widened and
      shifted left by 32. */
  function Join(low: bv32, high: bv32): (r: bv64)
    ensures IntOf(r) == low && IntOf(r >> 32) == high
  {
    WideningBitsVanish(low);
    WideningBitsVanish(high);
    (0xffff_ffff & SignExtend(low)) | (SignExtend(high) << 32)
  }

  /** Splitting a quadword into the halves `setQuadWord` writes and joining
      them again gives the quadword back. */
  lemma JoinSplit(data: bv64)
    ensures Join(IntOf(data), IntOf(data >> 32)) == data
  {
  }

  /** `getQuadWord`: the low half is the zero-extended dword at the
      translation of `offset`, the high half the dword at the translation
      of `offset + 4` (Java `int` addition, so it wraps). The low dword is
      read before the second translation, so a fault of that read comes
      before a fault of the second translation. */
  function GetQuadWord<S>(space: AddressSpace<S>, seg: View<S>, offset: bv32): (r: Result<bv64>)
    ensures var low := Read(space.getDoubleWord, seg.memory, seg.translateRead(offset));
      low.Throw? ==> r == Throw(low.exc)
    ensures var low := Read(space.getDoubleWord, seg.memory, seg.translateRead(offset));
      var high := Read(space.getDoubleWord, seg.memory, seg.translateRead(offset + 4));
      low.Ok? ==> (if high.Throw? then r == Throw(high.exc) else r == Ok(Join(low.value, high.value)))
    ensures r.Ok? <==> && seg.memory.Some?
                       && seg.translateRead(offset).Ok? && seg.translateRead(offset + 4).Ok?
                       && space.getDoubleWord(seg.memory.value, seg.translateRead(offset).value).Ok?
                       && space.getDoubleWord(seg.memory.value, seg.translateRead(offset + 4).value).Ok?
    ensures r.Ok? ==> IntOf(r.value) == space.getDoubleWord(seg.memory.value, seg.translateRead(offset).value).value
    ensures r.Ok? ==> IntOf(r.value >> 32) == space.getDoubleWord(seg.memory.value, seg.translateRead(offset + 4).value).value
  {
    match Read(space.getDoubleWord, seg.memory, seg.translateRead(offset))
    case Throw(e) => Throw(e)
    case Ok(low) =>
      match Read(space.getDoubleWord, seg.memory, seg.translateRead(offset + 4))
      case Throw(e) => Throw(e)
      case Ok(high) => Ok(Join(low, high))
  }

  function SetByte<S>(space: AddressSpace<S>, seg: View<S>, offset: bv32, data: bv8): (r: Stored<Option<S>>)
    ensures seg.translateWrite(offset).Throw? ==> r == Stored(seg.memory, Some(seg.translateWrite(offset).exc))
    ensures seg.translateWrite(offset).Ok? && seg.memory.None? ==> r == Stored(None, Some(NullPointer))
    ensures seg.translateWrite(offset).Ok? && seg.memory.Some? ==>
      var st := space.setByte(seg.memory.value, seg.translateWrite(offset).value, data);
      r == Stored(Some(st.memory), st.fault)
  {
    Write(space.setByte, seg.memory, seg.translateWrite(offset), data)
  }

  function SetWord<S>(space: AddressSpace<S>, seg: View<S>, offset: bv32, data: bv16): (r: Stored<Option<S>>)
    ensures seg.translateWrite(offset).Throw? ==> r == Stored(seg.memory, Some(seg.translateWrite(offset).exc))
    ensures seg.translateWrite(offset).Ok? && seg.memory.None? ==> r == Stored(None, Some(NullPointer))
    ensures seg.translateWrite(offset).Ok? && seg.memory.Some? ==>
      var st := space.setWord(seg.memory.value, seg.translateWrite(offset).value, data);
      r == Stored(Some(st.memory), st.fault)
  {
    Write(space.setWord, seg.memory, seg.translateWrite(offset), data)
  }

  function SetDoubleWord<S>(space: AddressSpace<S>, seg: View<S>, offset: bv32, data: bv32): (r: Stored<Option<S>>)
    ensures seg.translateWrite(offset).Throw? ==> r == Stored(seg.memory, Some(seg.translateWrite(offset).exc))
    ensures seg.translateWrite(offset).Ok? && seg.memory.None? ==> r == Stored(None, Some(NullPointer))
    ensures seg.translateWrite(offset).Ok? && seg.memory.Some? ==>
      var st := space.setDoubleWord(seg.memory.value, seg.translateWrite(offset).value, data);
      r == Stored(Some(st.memory), st.fault)
  {
    Write(space.setDoubleWord, seg.memory, seg.translateWrite(offset), data)
  }

  /** `setQuadWord`: the low 32 bits go to the translation of `offset`, then
      the high 32 bits (`>>> 32`) to the translation of `offset + 4`. The
      second translation happens after the first store, so a fault there,
      or in the second store, leaves the low half written. */
  function SetQuadWord<S>(space: AddressSpace<S>, seg: View<S>, offset: bv32, data: bv64): (r: Stored<Option<S>>)
    ensures var low := Write(space.setDoubleWord, seg.memory, seg.translateWrite(offset), IntOf(data));
      low.fault.Some? ==> r == low
    ensures var low := Write(space.setDoubleWord, seg.memory, seg.translateWrite(offset), IntOf(data));
      low.fault.None? ==> r == Write(space.setDoubleWord, low.memory, seg.translateWrite(offset + 4), IntOf(data >> 32))
    ensures r.fault.None? <==>
      && seg.translateWrite(offset).Ok? && seg.translateWrite(offset + 4).Ok? && seg.memory.Some?
      && var low := space.setDoubleWord(seg.memory.value, seg.translateWrite(offset).value, IntOf(data));
         low.fault.None? && space.setDoubleWord(low.memory, seg.translateWrite(offset + 4).value, IntOf(data >> 32)).fault.None?
  {
    var low := Write(space.setDoubleWord, seg.memory, seg.translateWrite(offset), IntOf(data));
    if low.fault.Some? then low
    else Write(space.setDoubleWord, low.memory, seg.translateWrite(offset + 4), IntOf(data >> 32))
  }

  /** The four bytes at `a` and at `b` do not overlap (addresses wrap at 2^32). */
  predicate Disjoint4(a: bv32, b: bv32) {
    b - a >= 4 && a - b >= 4
  }

  /** The read-after-write laws of a well-behaved address space: a store
      that completes is read back, and leaves dwords it does not overlap as
      they were. Faulting accesses are not constrained. */
  ghost predicate ByteLaw<S(!new)>(space: AddressSpace<S>) {
    forall s: S, a: bv32, v: bv8 {:trigger space.setByte(s, a, v)} ::
      space.setByte(s, a, v).fault.None? ==> space.getByte(space.setByte(s, a, v).memory, a) == Ok(v)
  }

  ghost predicate WordLaw<S(!new)>(space: AddressSpace<S>) {
    forall s: S, a: bv32, v: bv16 {:trigger space.setWord(s, a, v)} ::
      space.setWord(s, a, v).fault.None? ==> space.getWord(space.setWord(s, a, v).memory, a) == Ok(v)
  }

  ghost predicate DoubleWordLaws<S(!new)>(space: AddressSpace<S>) {
    && (forall s: S, a: bv32, v: bv32 {:trigger space.setDoubleWord(s, a, v)} ::
          space.setDoubleWord(s, a, v).fault.None? ==>
            space.getDoubleWord(space.setDoubleWord(s, a, v).memory, a) == Ok(v))
    && (forall s: S, a: bv32, b: bv32, v: bv32
          {:trigger space.getDoubleWord(space.setDoubleWord(s, b, v).memory, a)} ::
          space.setDoubleWord(s, b, v).fault.None? && Disjoint4(a, b) ==>
            space.getDoubleWord(space.setDoubleWord(s, b, v).memory, a) == space.getDoubleWord(s, a))
  }

  /** Translations that agree for reads and writes at `offset`. */
  predicate SameTranslation<S>(seg: View<S>, offset: bv32) {
    seg.translateRead(offset) == seg.translateWrite(offset)
  }

  /** A byte store that completes reads back, whatever the translation and
      the memory binding. */
  lemma ByteRoundTrip<S(!new)>(space: AddressSpace<S>, seg: View<S>, offset: bv32, data: bv8)
    requires ByteLaw(space) && SameTranslation(seg, offset)
    ensures var w := SetByte(space, seg, offset, data);
      w.fault.None? ==> GetByte(space, seg.(memory := w.memory), offset) == Ok(data)
  {
  }

  lemma WordRoundTrip<S(!new)>(space: AddressSpace<S>, seg: View<S>, offset: bv32, data: bv16)
    requires WordLaw(space) && SameTranslation(seg, offset)
    ensures var w := SetWord(space, seg, offset, data);
      w.fault.None? ==> GetWord(space, seg.(memory := w.memory), offset) == Ok(data)
  {
  }

  lemma DoubleWordRoundTrip<S(!new)>(space: AddressSpace<S>, seg: View<S>, offset: bv32, data: bv32)
    requires DoubleWordLaws(space) && SameTranslation(seg, offset)
    ensures var w := SetDoubleWord(space, seg, offset, data);
      w.fault.None? ==> GetDoubleWord(space, seg.(memory := w.memory), offset) == Ok(data)
  {
  }

  /** `getQuadWord` after a `setQuadWord` that completes returns the value
      written, when the translations agree and the two halves land on
      non-overlapping dwords. */
  lemma QuadWordRoundTrip<S(!new)>(space: AddressSpace<S>, seg: View<S>, offset: bv32, data: bv64)
    requires DoubleWordLaws(space)
    requires SameTranslation(seg, offset) && SameTranslation(seg, offset + 4)
    requires seg.translateWrite(offset).Ok? && seg.translateWrite(offset + 4).Ok?
    requires Disjoint4(seg.translateWrite(offset).value, seg.translateWrite(offset + 4).value)
    ensures var w := SetQuadWord(space, seg, offset, data);
      w.fault.None? ==> GetQuadWord(space, seg.(memory := w.memory), offset) == Ok(data)
  {
    var w := SetQuadWord(space, seg, offset, data);
    if w.fault.None? {
      var lowAddress := seg.translateWrite(offset).value;
      var highAddress := seg.translateWrite(offset + 4).value;
      var afterLow := space.setDoubleWord(seg.memory.value, lowAddress, IntOf(data));
      var afterHigh := space.setDoubleWord(afterLow.memory, highAddress, IntOf(data >> 32));
      assert w.memory == Some(afterHigh.memory);
      assert space.getDoubleWord(afterHigh.memory, highAddress) == Ok(IntOf(data >> 32));
      assert space.getDoubleWord(afterLow.memory, lowAddress) == Ok(IntOf(data));
      assert space.getDoubleWord(afterHigh.memory, lowAddress) == Ok(IntOf(data));
      JoinSplit(data);
    }
  }

  /** A fault on the second translation leaves a torn write: the low half
      is in memory although the store failed. */
  lemma QuadWordTornWrite<S(!new)>(space: AddressSpace<S>, seg: View<S>, offset: bv32, data: bv64)
    requires DoubleWordLaws(space) && SameTranslation(seg, offset)
    requires seg.translateWrite(offset).Ok? && seg.translateWrite(offset + 4).Throw?
    ensures var w := SetQuadWord(space, seg, offset, data);
      && w.fault.Some?
      && (SetDoubleWord(space, seg, offset, IntOf(data)).fault.None? ==>
            GetDoubleWord(space, seg.(memory := w.memory), offset) == Ok(IntOf(data)))
  {
  }

  /** After `setAddressSpace`, every read goes to the new memory through the
      unchanged translation; binding null makes every translated read throw
      a null-pointer exception. */
  lemma RebindRedirectsReads<S(!new)>(space: AddressSpace<S>, seg: View<S>, memory: Option<S>, offset: bv32)
    ensures var r := SetAddressSpace(seg, memory);
      && (seg.translateRead(offset).Ok? && memory.Some? ==>
            GetDoubleWord(space, r, offset) == space.getDoubleWord(memory.value, seg.translateRead(offset).value))
      && (seg.translateRead(offset).Ok? && memory.None? ==> GetByte(space, r, offset) == Throw(NullPointer))
      && (seg.translateRead(offset).Throw? ==> GetByte(space, r, offset) == Throw(seg.translateRead(offset).exc))
  {
  }
}
