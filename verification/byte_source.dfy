/** The byte cursor the code-block decoders read instructions through: a
    memory, a current offset, and the offset recorded by the last `set`.
    The memory is uninterpreted: `MemoryOps<M>` gives its byte reader
    (which may throw) and its size. Offsets are Java `int`s, so every
    addition wraps at 32 bits. */
module ByteSourceWrappedMemory {
  import opened Jvm

  /** What the cursor uses of a `Memory`. */
  datatype MemoryOps<!M> = MemoryOps(getByte: (M, int) -> Result<bv8>, getSize: M -> int)

  /** The cursor's fields; `source` is null until the first `set`. */
  datatype Cursor<M> = Cursor(source: Option<M>, offset: int, startingPosition: int)

  /** A freshly allocated cursor: every field at its Java default. */
  function Fresh<M>(): (c: Cursor<M>)
    ensures Valid(c) && c.source.None?
  {
    Cursor(None, 0, 0)
  }

  /** Both positions are Java `int`s. */
  predicate Valid<M>(c: Cursor<M>) {
    IsInt32(c.offset) && IsInt32(c.startingPosition)
  }

  /** `set`: rebinds the memory and records `offset` as both the current and
      the starting position. */
  function Set<M>(c: Cursor<M>, source: M, offset: int): (r: Cursor<M>)
    requires IsInt32(offset)
    ensures Valid(r)
    ensures r.source == Some(source) && GetOffset(r) == offset
    ensures Reset(r) == r
  {
    Cursor(Some(source), offset, offset)
  }

  function GetOffset<M>(c: Cursor<M>): int {
    c.offset
  }

  /** `getByte`: `source.getByte(offset++)`. The post-increment is evaluated
      before the call, so the offset advances by one (wrapping) even when the
      memory throws or the source is null. No bounds check of its own. */
  function GetByte<M>(ops: MemoryOps<M>, c: Cursor<M>): (r: (Cursor<M>, Result<bv8>))
    requires Valid(c)
    ensures Valid(r.0)
    ensures r.0.source == c.source && r.0.startingPosition == c.startingPosition
    ensures IsInt32(c.offset + 1) ==> r.0.offset == c.offset + 1
    ensures c.offset == MAX_INT ==> r.0.offset == MIN_INT
    ensures c.source.None? ==> r.1 == Throw(NullPointer)
    ensures c.source.Some? ==> r.1 == ops.getByte(c.source.value, c.offset)
  {
    var next := c.(offset := Wrap32(c.offset + 1));
    match c.source
    case None => (next, Throw(NullPointer))
    case Some(m) => (next, ops.getByte(m, c.offset))
  }

  /** `skip`: refuses with `IndexOutOfBoundsException`, leaving the offset
      alone, when the 32-bit sum `offset + count` reaches the memory's size;
      otherwise moves to that sum. */
  function Skip<M>(ops: MemoryOps<M>, c: Cursor<M>, count: int): (r: (Cursor<M>, Option<Exc>))
    requires Valid(c) && IsInt32(count)
    ensures Valid(r.0)
    ensures r.1.Some? ==> r.0 == c
    ensures c.source.None? ==> r.1 == Some(NullPointer)
    ensures c.source.Some? ==>
      (r.1 == Some(IndexOutOfBounds) <==> Wrap32(c.offset + count) >= ops.getSize(c.source.value))
    ensures r.1.None? ==> r.0 == c.(offset := Wrap32(c.offset + count))
    ensures r.1.None? && IsInt32(c.offset + count) ==> GetOffset(r.0) == GetOffset(c) + count
  {
    match c.source
    case None => (c, Some(NullPointer))
    case Some(m) =>
      var target := Wrap32(c.offset + count);
      if target >= ops.getSize(m) then (c, Some(IndexOutOfBounds))
      else (c.(offset := target), None)
  }

  /** `reset`: back to the position recorded by `set`. */
  function Reset<M>(c: Cursor<M>): (r: Cursor<M>)
    ensures GetOffset(r) == c.startingPosition
    ensures r.source == c.source && r.startingPosition == c.startingPosition
  {
    c.(offset := c.startingPosition)
  }

  /** Resetting twice is resetting once. */
  lemma ResetIdempotent<M>(c: Cursor<M>)
    ensures Reset(Reset(c)) == Reset(c)
  {
  }

  /** The calls a decoder makes on the cursor between two `set`s. */
  datatype Use = ReadByte | SkipBytes(count: int) | Rewind

  predicate ValidUse(u: Use) {
    u.SkipBytes? ==> IsInt32(u.count)
  }

  /** The cursor after a decoder's sequence of calls; an exception ends the
      sequence. */
  function Run<M>(ops: MemoryOps<M>, c: Cursor<M>, uses: seq<Use>): (r: Cursor<M>)
    requires Valid(c)
    requires forall u :: u in uses ==> ValidUse(u)
    ensures Valid(r)
    decreases |uses|
  {
    if uses == [] then c
    else
      assert uses[0] in uses;
      match uses[0]
      case ReadByte =>
        var step := GetByte(ops, c);
        if step.1.Throw? then step.0 else Run(ops, step.0, uses[1..])
      case SkipBytes(n) =>
        assert ValidUse(uses[0]);
        var step := Skip(ops, c, n);
        if step.1.Some? then step.0 else Run(ops, step.0, uses[1..])
      case Rewind => Run(ops, Reset(c), uses[1..])
  }

  /** Whatever a decoder does with the cursor, it reads the same memory and
      `reset` still returns to the offset given to `set`. */
  lemma {:induction false} RunKeepsStart<M>(ops: MemoryOps<M>, c: Cursor<M>, uses: seq<Use>)
    requires Valid(c)
    requires forall u :: u in uses ==> ValidUse(u)
    ensures Run(ops, c, uses).source == c.source
    ensures Run(ops, c, uses).startingPosition == c.startingPosition
    ensures GetOffset(Reset(Run(ops, c, uses))) == c.startingPosition
    decreases |uses|
  {
    if uses != [] {
      var tail := uses[1..];
      assert uses[0] in uses;
      match uses[0]
      case ReadByte =>
        RunKeepsStart(ops, GetByte(ops, c).0, tail);
      case SkipBytes(n) =>
        RunKeepsStart(ops, Skip(ops, c, n).0, tail);
      case Rewind =>
        RunKeepsStart(ops, Reset(c), tail);
    }
  }

  /** Reading `n` bytes from a bound cursor, with no offset near the 32-bit
      limit, advances the offset by exactly `n`. */
  lemma {:induction false} ReadsAdvance<M>(ops: MemoryOps<M>, c: Cursor<M>, n: nat)
    requires Valid(c) && c.source.Some?
    requires c.offset + n <= MAX_INT
    requires forall k :: c.offset <= k < c.offset + n ==> ops.getByte(c.source.value, k).Ok?
    ensures GetOffset(Run(ops, c, seq(n, _ => ReadByte))) == GetOffset(c) + n
    decreases n
  {
    var uses := seq(n, _ => ReadByte);
    if n > 0 {
      var next := GetByte(ops, c).0;
      assert uses[1..] == seq(n - 1, _ => ReadByte);
      ReadsAdvance(ops, next, n - 1);
    }
  }
}
