/** The code-block manager: one factory chain per processor mode, and the
    fetch protocol that rebinds the shared byte cursor, asks the mode's
    factory for a block, turns an array-index overflow into a spanning stub
    block and refuses a null block. The decoders, the compiler and the
    factory's work are uninterpreted: a `Builder` stands for
    `DefaultCodeBlockFactory` and says what the factory returns and where it
    leaves the cursor. */
module CodeBlockManager {
  import opened Jvm
  import opened ByteSourceWrappedMemory

  datatype Mode = RealMode | ProtectedMode | Virtual8086Mode

  datatype Decoder = RealModeUDecoder | ProtectedModeUDecoder

  datatype Compiler = OptimisedCompiler

  /** A `DefaultCodeBlockFactory`, described by its parts. */
  datatype Factory = DefaultCodeBlockFactory(decoder: Decoder, compiler: Compiler, limit: int)

  /** The manager's fields. */
  datatype Manager<M> = Manager(
    byteSource: Cursor<M>,
    realModeChain: Factory,
    protectedModeChain: Factory,
    virtual8086ModeChain: Factory)

  /** The chain the manager uses for a mode. */
  function ChainFor<M>(mgr: Manager<M>, mode: Mode): Factory {
    match mode
    case RealMode => mgr.realModeChain
    case ProtectedMode => mgr.protectedModeChain
    case Virtual8086Mode => mgr.virtual8086ModeChain
  }

  /** The default constructor. `blockLimit` is the value the static
      `BLOCK_LIMIT` (the most instructions a factory puts in one block;
      initially 1000, and a public volatile tunable) holds when it runs. */
  function New<M>(blockLimit: int): (mgr: Manager<M>)
    ensures Valid(mgr.byteSource) && mgr.byteSource.source.None?
    ensures forall mode :: ChainFor(mgr, mode).limit == blockLimit
    ensures forall mode :: ChainFor(mgr, mode).compiler == OptimisedCompiler
    ensures forall mode :: ChainFor(mgr, mode).decoder.ProtectedModeUDecoder? <==> mode.ProtectedMode?
  {
    Manager(
      Fresh(),
      DefaultCodeBlockFactory(RealModeUDecoder, OptimisedCompiler, blockLimit),
      DefaultCodeBlockFactory(ProtectedModeUDecoder, OptimisedCompiler, blockLimit),
      DefaultCodeBlockFactory(RealModeUDecoder, OptimisedCompiler, blockLimit))
  }

  /** What a factory call ends in: a block, `null`, or an exception
      (`CodeBlockReplacementException` carries its replacement block). */
  datatype Outcome<B> = Produced(block: B) | NullBlock | Raised(exc: Exc) | Replaced(replacement: B)

  /** A factory's answer, together with the cursor as the factory left it. */
  datatype Built<M, B> = Built(outcome: Outcome<B>, cursor: Cursor<M>)

  /** The uninterpreted factory: which chain, which mode's method, the
      cursor it reads through, and the operand-size flag (given only to the
      protected-mode method). */
  type Builder<!M, B> = (Factory, Mode, Cursor<M>, Option<bool>) -> Built<M, B>

  /** A block the manager hands out: the factory's own, or a spanning stub
      that rebuilds itself later through the listed chains. */
  datatype CodeBlock<B> = Block(block: B) | Spanning(mode: Mode, chains: seq<Factory>)

  /** What `try*Factory` returns (a block or `null`) or throws. */
  datatype Tried<B> = Got(block: CodeBlock<B>) | GotNull | TryThrew(exc: Exc) | TryReplaced(replacement: B)

  /** `tryRealModeFactory`, `tryProtectedModeFactory` and
      `tryVirtual8086ModeFactory`: rebind the cursor to `(memory, offset)`,
      call the factory, and catch only `ArrayIndexOutOfBoundsException`.
      `memory` is never null here: a null memory handed to `set`, and the
      `NullPointerException` of the factory's first read from it, appear
      only as the outcome the `Builder` gives. */
  function TryFactory<M, B>(mgr: Manager<M>, build: Builder<M, B>, mode: Mode, chain: Factory,
                           memory: M, offset: int, operandSize: Option<bool>)
    : (r: (Manager<M>, Tried<B>))
    requires IsInt32(offset)
    ensures var b := build(chain, mode, Set(mgr.byteSource, memory, offset), operandSize);
      && r.0 == mgr.(byteSource := b.cursor)
      && (b.outcome == Raised(ArrayIndexOutOfBounds) <==> r.1 == Got(Spanning(mode, [ChainFor(mgr, mode)])))
      && (b.outcome.Raised? && b.outcome.exc != ArrayIndexOutOfBounds ==> r.1 == TryThrew(b.outcome.exc))
      && (b.outcome.Produced? ==> r.1 == Got(Block(b.outcome.block)))
      && (b.outcome.NullBlock? <==> r.1.GotNull?)
      && (b.outcome.Replaced? ==> r.1 == TryReplaced(b.outcome.replacement))
  {
    var b := build(chain, mode, Set(mgr.byteSource, memory, offset), operandSize);
    var tried := match b.outcome
      case Produced(block) => Got(Block(block))
      case NullBlock => GotNull
      case Raised(e) =>
        if e == ArrayIndexOutOfBounds then Got(Spanning(mode, [ChainFor(mgr, mode)])) else TryThrew(e)
      case Replaced(block) => TryReplaced(block);
    (mgr.(byteSource := b.cursor), tried)
  }

  /** What `get*CodeBlockAt` returns or throws. */
  datatype Fetched<B> = Fetched(block: CodeBlock<B>) | Threw(exc: Exc) | ReplacementThrown(replacement: B)

  /** The message of the `IllegalStateException` for a null block. */
  function NullBlockMessage(mode: Mode): string {
    match mode
    case RealMode => "Couldn't find/make suitable realmode block"
    case ProtectedMode => "Couldn't find/make suitable pmode block"
    case Virtual8086Mode => "Couldn't find/make suitable VM86 block"
  }

  /** The common body of the three `get*CodeBlockAt` methods: a null block
      from the factory becomes an `IllegalStateException`. */
  function GetCodeBlockAt<M, B>(mgr: Manager<M>, build: Builder<M, B>, mode: Mode, memory: M,
                                offset: int, operandSize: Option<bool>)
    : (r: (Manager<M>, Fetched<B>))
    requires IsInt32(offset)
    ensures var t := TryFactory(mgr, build, mode, ChainFor(mgr, mode), memory, offset, operandSize);
      && r.0 == t.0
      && (t.1.GotNull? ==> r.1 == Threw(IllegalState(NullBlockMessage(mode))))
      && (t.1.Got? <==> r.1.Fetched?)
      && (t.1.Got? ==> r.1.block == t.1.block)
      && (t.1.TryThrew? ==> r.1 == Threw(t.1.exc))
      && (t.1.TryReplaced? ==> r.1 == ReplacementThrown(t.1.replacement))
  {
    var (m, t) := TryFactory(mgr, build, mode, ChainFor(mgr, mode), memory, offset, operandSize);
    var fetched := match t
      case Got(block) => Fetched(block)
      case GotNull => Threw(IllegalState(NullBlockMessage(mode)))
      case TryThrew(e) => Threw(e)
      case TryReplaced(block) => ReplacementThrown(block);
    (m, fetched)
  }

  function GetRealModeCodeBlockAt<M, B>(mgr: Manager<M>, build: Builder<M, B>, memory: M, offset: int)
    : (r: (Manager<M>, Fetched<B>))
    requires IsInt32(offset)
    ensures var b := build(mgr.realModeChain, RealMode, Set(mgr.byteSource, memory, offset), None);
      && r.0.byteSource == b.cursor
      && (b.outcome.Produced? ==> r.1 == Fetched(Block(b.outcome.block)))
      && (b.outcome == Raised(ArrayIndexOutOfBounds) ==> r.1 == Fetched(Spanning(RealMode, [mgr.realModeChain])))
      && (b.outcome.NullBlock? ==> r.1 == Threw(IllegalState("Couldn't find/make suitable realmode block")))
  {
    GetCodeBlockAt(mgr, build, RealMode, memory, offset, None)
  }

  function GetProtectedModeCodeBlockAt<M, B>(mgr: Manager<M>, build: Builder<M, B>, memory: M,
                                             offset: int, operandSize: bool)
    : (r: (Manager<M>, Fetched<B>))
    requires IsInt32(offset)
    ensures var b := build(mgr.protectedModeChain, ProtectedMode, Set(mgr.byteSource, memory, offset), Some(operandSize));
      && r.0.byteSource == b.cursor
      && (b.outcome.Produced? ==> r.1 == Fetched(Block(b.outcome.block)))
      && (b.outcome == Raised(ArrayIndexOutOfBounds) ==> r.1 == Fetched(Spanning(ProtectedMode, [mgr.protectedModeChain])))
      && (b.outcome.NullBlock? ==> r.1 == Threw(IllegalState("Couldn't find/make suitable pmode block")))
  {
    GetCodeBlockAt(mgr, build, ProtectedMode, memory, offset, Some(operandSize))
  }

  function GetVirtual8086ModeCodeBlockAt<M, B>(mgr: Manager<M>, build: Builder<M, B>, memory: M, offset: int)
    : (r: (Manager<M>, Fetched<B>))
    requires IsInt32(offset)
    ensures var b := build(mgr.virtual8086ModeChain, Virtual8086Mode, Set(mgr.byteSource, memory, offset), None);
      && r.0.byteSource == b.cursor
      && (b.outcome.Produced? ==> r.1 == Fetched(Block(b.outcome.block)))
      && (b.outcome == Raised(ArrayIndexOutOfBounds) ==> r.1 == Fetched(Spanning(Virtual8086Mode, [mgr.virtual8086ModeChain])))
      && (b.outcome.NullBlock? ==> r.1 == Threw(IllegalState("Couldn't find/make suitable VM86 block")))
  {
    GetCodeBlockAt(mgr, build, Virtual8086Mode, memory, offset, None)
  }

  /** The factory is always called on a cursor freshly bound to the
      requested memory and offset, whatever the cursor held before. */
  lemma FactorySeesFreshCursor<M, B>(mgr: Manager<M>, mode: Mode, memory: M, offset: int)
    requires IsInt32(offset)
    ensures var c := Set(mgr.byteSource, memory, offset);
      c.source == Some(memory) && GetOffset(c) == offset && GetOffset(Reset(c)) == offset
  {
  }

  /** A successful fetch never yields null: the caller gets the factory's
      block, or a spanning stub of the same mode over that mode's chain. */
  lemma FetchNeverNull<M, B>(mgr: Manager<M>, build: Builder<M, B>, mode: Mode, memory: M,
                             offset: int, operandSize: Option<bool>)
    requires IsInt32(offset)
    ensures var f := GetCodeBlockAt(mgr, build, mode, memory, offset, operandSize).1;
      var b := build(ChainFor(mgr, mode), mode, Set(mgr.byteSource, memory, offset), operandSize);
      f.Fetched? <==> b.outcome.Produced? || b.outcome == Raised(ArrayIndexOutOfBounds)
  {
  }

  /** The plain `IndexOutOfBoundsException` thrown by the cursor's `skip` is
      not converted into a spanning block: it reaches the caller. */
  lemma SkipOverflowPropagates<M, B>(mgr: Manager<M>, build: Builder<M, B>, mode: Mode, memory: M,
                                     offset: int, operandSize: Option<bool>)
    requires IsInt32(offset)
    requires build(ChainFor(mgr, mode), mode, Set(mgr.byteSource, memory, offset), operandSize).outcome
             == Raised(IndexOutOfBounds)
    ensures GetCodeBlockAt(mgr, build, mode, memory, offset, operandSize).1 == Threw(IndexOutOfBounds)
  {
  }

  /** On a freshly constructed manager, a spanning stub carries the chain of
      its own mode, with that mode's decoder and the shared block limit. */
  lemma SpanningUsesOwnChain<M, B>(blockLimit: int, build: Builder<M, B>, mode: Mode, memory: M, offset: int,
                                   operandSize: Option<bool>)
    requires IsInt32(offset)
    ensures var f := GetCodeBlockAt(New<M>(blockLimit), build, mode, memory, offset, operandSize).1;
      f.Fetched? && f.block.Spanning? ==>
        && f.block.mode == mode
        && |f.block.chains| == 1
        && f.block.chains[0].limit == blockLimit
        && (f.block.chains[0].decoder == ProtectedModeUDecoder <==> mode == ProtectedMode)
  {
  }
}
