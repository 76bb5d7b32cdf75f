/** Read-only memory for the BIOS images (`EPROMMemory`): contents copied
    once at construction from a fragment of a byte array, and every later
    write ignored, with a warning for the dword and block writes. The
    underlying lazy code-block memory is taken to allocate `size` zeroed
    bytes and to copy as `System.arraycopy` does; its cache of compiled
    blocks is abstracted to the set of offsets that hold a cached block. */
module EpromMemory {
  import opened Jvm

  datatype Eprom = Eprom(contents: seq<bv8>, cachedBlocks: set<int>)

  /** A warning written to the error stream: a write of `size` bytes was
      attempted at `address`. */
  datatype Warning = Warning(address: int, size: int)

  /** The number of bytes the constructor copies: no more than fit after
      `base`, than asked for, or than the source has after `offset`. Java
      computes the two differences in `int`; they can wrap only when `base`
      or `offset` is negative, and then the copy fails whatever the count,
      so the unbounded differences give the same outcome. */
  function CopyCount(size: int, base: int, dataLength: int, offset: int, length: int): (n: int)
    ensures n <= size - base && n <= length && n <= dataLength - offset
    ensures n == size - base || n == length || n == dataLength - offset
  {
    var available := if length <= dataLength - offset then length else dataLength - offset;
    if size - base <= available then size - base else available
  }

  /** The general constructor: a `size`-byte memory holding `data[offset..]`
      at `base`, as much of it as `CopyCount` allows. A negative size fails
      the allocation; a negative base, offset or count fails the copy. */
  function Construct(size: int, base: int, data: seq<bv8>, offset: int, length: int): (r: Result<Eprom>)
    requires IsInt32(size) && IsInt32(base) && IsInt32(offset) && IsInt32(length) && |data| <= MAX_INT
    ensures size < 0 ==> r == Throw(NegativeArraySize)
    ensures var n := CopyCount(size, base, |data|, offset, length);
      size >= 0 ==> (r.Ok? <==> 0 <= base && 0 <= offset && 0 <= n)
    ensures var n := CopyCount(size, base, |data|, offset, length);
      r.Ok? ==> && |r.value.contents| == size && r.value.cachedBlocks == {}
                && (forall j :: base <= j < base + n ==> r.value.contents[j] == data[offset + j - base])
                && (forall i :: 0 <= i < size && !(base <= i < base + n) ==> r.value.contents[i] == 0)
  {
    if size < 0 then Throw(NegativeArraySize)
    else
      var n := CopyCount(size, base, |data|, offset, length);
      if base < 0 || offset < 0 || n < 0 then Throw(ArrayIndexOutOfBounds)
      else
        var contents := seq(size, i requires 0 <= i < size => if base <= i < base + n then data[offset + i - base] else 0);
        Ok(Eprom(contents, {}))
  }

  /** The three-argument constructor: `length` bytes filled from
      `data[offset..]`, and zero past the end of `data`. It is the general
      constructor with size `length` and base 0, so a negative length fails
      the allocation and an offset outside `data` fails the copy. */
  function FromArray(data: seq<bv8>, offset: int, length: int): (r: Result<Eprom>)
    requires IsInt32(offset) && IsInt32(length) && |data| <= MAX_INT
    ensures length < 0 ==> r == Throw(NegativeArraySize)
    ensures 0 <= length ==> (r.Ok? <==> 0 <= offset <= |data|)
    ensures r.Ok? ==> |r.value.contents| == length && r.value.cachedBlocks == {}
    ensures r.Ok? ==> forall i :: 0 <= i < length && offset + i < |data| ==> r.value.contents[i] == data[offset + i]
    ensures r.Ok? ==> forall i :: 0 <= i < length && offset + i >= |data| ==> r.value.contents[i] == 0
  {
    var n := CopyCount(length, 0, |data|, offset, length);
    assert n == if length <= |data| - offset then length else |data| - offset;
    Construct(length, 0, data, offset, length)
  }

  /** `setByte` and `setWord`: ignored, silently. */
  function SetByte(m: Eprom, offset: int, data: bv8): (r: (Eprom, seq<Warning>))
    ensures r.0.contents == m.contents && r.1 == []
  {
    (m, [])
  }

  function SetWord(m: Eprom, offset: int, data: bv16): (r: (Eprom, seq<Warning>))
    ensures r.0.contents == m.contents && r.1 == []
  {
    (m, [])
  }

  /** `setDoubleWord`: ignored, with a warning about 4 bytes. */
  function SetDoubleWord(m: Eprom, offset: int, data: bv32): (r: (Eprom, seq<Warning>))
    ensures r.0.contents == m.contents && r.1 == [Warning(offset, 4)]
  {
    (m, [Warning(offset, 4)])
  }

  /** `copyArrayIntoContents`: ignored, with a warning about `len` bytes. */
  function CopyArrayIntoContents(m: Eprom, address: int, buf: seq<bv8>, off: int, len: int): (r: (Eprom, seq<Warning>))
    ensures r.0.contents == m.contents && r.1 == [Warning(address, len)]
  {
    (m, [Warning(address, len)])
  }

  /** `clear`: drops the cached code blocks; the contents stay. */
  function Clear(m: Eprom): (r: Eprom)
    ensures r.contents == m.contents && r.cachedBlocks == {}
  {
    m.(cachedBlocks := {})
  }

  /** The writes a program can attempt on the memory. */
  datatype Write =
    | ByteWrite(offset: int, b: bv8)
    | WordWrite(offset: int, w: bv16)
    | DoubleWordWrite(offset: int, d: bv32)
    | BlockWrite(address: int, buf: seq<bv8>, off: int, len: int)

  function Apply(m: Eprom, w: Write): (Eprom, seq<Warning>) {
    match w
    case ByteWrite(offset, b) => SetByte(m, offset, b)
    case WordWrite(offset, x) => SetWord(m, offset, x)
    case DoubleWordWrite(offset, x) => SetDoubleWord(m, offset, x)
    case BlockWrite(address, buf, off, len) => CopyArrayIntoContents(m, address, buf, off, len)
  }

  /** A sequence of writes, in order, with the warnings they raise. */
  function ApplyAll(m: Eprom, writes: seq<Write>): (Eprom, seq<Warning>)
    decreases |writes|
  {
    if writes == [] then (m, [])
    else
      var first := Apply(m, writes[0]);
      var rest := ApplyAll(first.0, writes[1..]);
      (rest.0, first.1 + rest.1)
  }

  /** Warned writes: the dword and block writes. */
  predicate Warns(w: Write) {
    w.DoubleWordWrite? || w.BlockWrite?
  }

  /** The memory is read-only: no sequence of writes changes the contents,
      and each dword or block write, and only those, leaves one warning. */
  lemma {:induction false} WritesNeverChangeContents(m: Eprom, writes: seq<Write>)
    ensures ApplyAll(m, writes).0.contents == m.contents
    ensures |ApplyAll(m, writes).1| == |WarnedWrites(writes)|
    decreases |writes|
  {
    if writes != [] {
      WritesNeverChangeContents(Apply(m, writes[0]).0, writes[1..]);
      assert writes == [writes[0]] + writes[1..];
    }
  }

  /** The writes that warn, in order. */
  function WarnedWrites(writes: seq<Write>): (r: seq<Write>)
    ensures forall w :: w in r <==> w in writes && Warns(w)
    decreases |writes|
  {
    if writes == [] then []
    else
      var rest := WarnedWrites(writes[1..]);
      assert forall w :: w in writes <==> w == writes[0] || w in writes[1..];
      if Warns(writes[0]) then [writes[0]] + rest else rest
  }
}
