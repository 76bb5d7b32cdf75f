# JPC-RR emulator core in Dafny

A Dafny model of the deterministic core of JPC-RR, a Java x86 PC emulator built
for re-recordable runs. Each module follows one Java class:

- the timer queue (`TimerPriorityQueue`): the ordered list of pending timers,
  with its insertion order, cancellation, and save/load stream;
- the processor's segments:
  - `Segment` accessors through a translation to the bound address space;
  - `SegmentFactory`'s descriptor dispatch and the NULL segment;
- the code-block fetch path:
  - the byte cursor `ByteSourceWrappedMemory`;
  - `CodeBlockManager`'s per-mode factory chains and null and overflow handling;
- the 8042 keyboard controller (`Keyboard`):
  - its output queue;
  - its interrupt logic and controller commands;
  - the PS/2 mouse packet encoder;
  - the validation of recorded keyboard and mouse events;
- the PCI configuration space (`AbstractPCIDevice`) and the i440FX host bridge
  (`PCIHostBridge`), with configuration mechanism #1;
- the fast A20 gate (`GateA20Handler`) and the PC speaker (`PCSpeaker`);
- the VGA digital output's pixel packing and dirty rectangle (`VGADigitalOut`);
- the read-only BIOS memory (`EPROMMemory`);
- the object numbering of the status dump (`StatusDumper`).

Java semantics are written out in the module `Jvm`:
- A null reference is `Option`.
- A thrown exception is `Result` or `Option<Exc>`. A fault caught mid-way keeps
  the state the Java code left, including writes that already landed.
- `int` arithmetic that can overflow goes through `Wrap32`.
- `%` on negative operands uses `JavaRem`, which truncates toward zero.
- Bytes and bit fields are bit-vectors.

Collaborators whose code is not part of this model are parameters of the
operations:
- the timer's `compareTo` is a `key` function;
- the address spaces and memories are records of accessor functions, whose
  accesses may fault; a segment's memory may be null;
- the PCI bus, the interval timer's output, the clock's time and `Integer.parseInt`
  are parameters;
- the code-block factories are a `Builder` function.

Port devices return what they ask of the outside, such as the A20 gate settings, a
processor reset, bus writes and speaker frames, rather than performing it.

Source paths below are relative to the repository root.

## Model

| member | source | states |
|---|---|---|
| TimerQueue.Peek | src/main/java/org/jpc/emulator/TimerPriorityQueue.java:103-109 | null exactly when the queue is empty, otherwise the head timer |
| TimerQueue.PeekIsEarliest | src/main/java/org/jpc/emulator/TimerPriorityQueue.java:103-109 | on a sorted queue the timer `peek` returns is due no later than any queued timer |
| TimerQueue.Offer | src/main/java/org/jpc/emulator/TimerPriorityQueue.java:131-158 | the list walk stops at the insertion point: every earlier timer compares `<=` the new one and the next one strictly later. The timer is spliced in there with every other node kept in order, agreeing with the functional `Insert` |
| TimerQueue.Insert | src/main/java/org/jpc/emulator/TimerPriorityQueue.java:131-158 | the queue grows by exactly one node |
| TimerQueue.InsertionPoint | src/main/java/org/jpc/emulator/TimerPriorityQueue.java:138-151 | the position where the walk stops satisfies the exit condition: all before compare `<=`, the next one strictly later |
| TimerQueue.InsertSplices | src/main/java/org/jpc/emulator/TimerPriorityQueue.java:131-158 | `Insert` places the timer at its insertion point and moves no other node |
| TimerQueue.InsertionPointUnique | src/main/java/org/jpc/emulator/TimerPriorityQueue.java:138-151 | the walk's exit condition determines a single position |
| TimerQueue.OfferKeepsSorted | src/main/java/org/jpc/emulator/TimerPriorityQueue.java:131-158 | offering into a sorted queue leaves it sorted |
| TimerQueue.OfferIsFifo | src/main/java/org/jpc/emulator/TimerPriorityQueue.java:139 | the strict `< 0` test puts every queued timer that compares equal ahead of the new one |
| TimerQueue.OfferGroups | src/main/java/org/jpc/emulator/TimerPriorityQueue.java:131-158 | within each group of equal expiry, `offer` appends the timer to its own group and leaves every other group as it was |
| TimerQueue.InsertKeepsSorted | src/main/java/org/jpc/emulator/TimerPriorityQueue.java:131-158 | the functional insertion keeps a sorted queue sorted |
| TimerQueue.InsertGroups | src/main/java/org/jpc/emulator/TimerPriorityQueue.java:131-158 | the functional insertion appends the timer to its expiry group only |
| TimerQueue.OfferAllKeepsSorted | src/main/java/org/jpc/emulator/TimerPriorityQueue.java:131-158 | any sequence of offers keeps the queue sorted |
| TimerQueue.OfferAllIsStable | src/main/java/org/jpc/emulator/TimerPriorityQueue.java:131-158 | after any sequence of offers, timers with equal expiry come out in the order they were offered, after those already queued (replay determinism) |
| TimerQueue.OfferScenario | src/main/java/org/jpc/emulator/TimerPriorityQueue.java:131-158 | offering A@100, B@100, C@50 into an empty queue gives the order C, A, B |
| TimerQueue.IndexOf | src/main/java/org/jpc/emulator/TimerPriorityQueue.java:113-128 | the identity search finds a timer exactly when it is queued, at its first node |
| TimerQueue.Remove | src/main/java/org/jpc/emulator/TimerPriorityQueue.java:111-129 | a timer that is not queued leaves the queue unchanged; a queued one shortens it by one |
| TimerQueue.IndexOfIsFirst | src/main/java/org/jpc/emulator/TimerPriorityQueue.java:116-128 | the walk stops at the first node holding the timer and at no other |
| TimerQueue.RemoveUnlinksFirst | src/main/java/org/jpc/emulator/TimerPriorityQueue.java:116-125 | `remove` unlinks exactly the first node holding the timer, keeps the others in order, and takes one copy out of the multiset of timers |
| TimerQueue.RemoveKeepsSorted | src/main/java/org/jpc/emulator/TimerPriorityQueue.java:111-129 | removing a timer keeps a sorted queue sorted |
| TimerQueue.RemoveUndoesOffer | src/main/java/org/jpc/emulator/TimerPriorityQueue.java:111-158 | cancelling a timer right after offering it restores the queue |
| TimerQueue.RemoveSpliced | src/main/java/org/jpc/emulator/TimerPriorityQueue.java:111-129 | removing a timer spliced into a queue that lacked it gives that queue back |
| TimerQueue.OfferMaintainsLast | src/main/java/org/jpc/emulator/TimerPriorityQueue.java:152-157 | after `offer`, `last` denotes the final node: the new node when the walk ran off the end, otherwise the old last node one place further down |
| TimerQueue.RemoveMaintainsLast | src/main/java/org/jpc/emulator/TimerPriorityQueue.java:122-123 | after `remove`, `last` still denotes the final node: it moves back to the previous node (or null) exactly when the last node was unlinked |
| TimerQueue.Dump | src/main/java/org/jpc/emulator/TimerPriorityQueue.java:53-62 | the save stream has two records per node and ends with `false` |
| TimerQueue.DumpLayout | src/main/java/org/jpc/emulator/TimerPriorityQueue.java:53-62 | node `i` is saved as `true` at position `2i` and its timer at `2i+1` |
| TimerQueue.Load | src/main/java/org/jpc/emulator/TimerPriorityQueue.java:64-77 | a successful load consumes a non-empty prefix of the stream |
| TimerQueue.LoadDump | src/main/java/org/jpc/emulator/TimerPriorityQueue.java:53-77 | loading a dump rebuilds the same timers in the same order and consumes exactly the dump |
| TimerQueue.LoadIsDump | src/main/java/org/jpc/emulator/TimerPriorityQueue.java:64-77 | whatever the loader accepts is the dump of the list it built, followed by the unread rest |
| Segment.SetAddressSpace | src/main/java/org/jpc/emulator/processor/Segment.java:53-56 | rebinds the memory, possibly to null, and keeps both translations |
| Segment.GetByte | src/main/java/org/jpc/emulator/processor/Segment.java:88-91 | a translation fault is thrown first; then a null memory throws a null-pointer exception; otherwise the result, value or fault, is the memory's own byte read at the translated address |
| Segment.GetWord | src/main/java/org/jpc/emulator/processor/Segment.java:93-96 | the same three cases for words |
| Segment.GetDoubleWord | src/main/java/org/jpc/emulator/processor/Segment.java:98-101 | the same three cases for dwords |
| Segment.WideningBitsVanish | src/main/java/org/jpc/emulator/processor/Segment.java:105-109 | the sign bits of Java's `int`-to-`long` widening are cleared by `& 0xFFFFFFFFL` and shifted out by `<< 32` |
| Segment.Join | src/main/java/org/jpc/emulator/processor/Segment.java:105-109 | the low and high 32 bits of the combined quadword are the two dwords read |
| Segment.JoinSplit | src/main/java/org/jpc/emulator/processor/Segment.java:103-133 | joining the two halves `setQuadWord` writes gives the quadword back |
| Segment.GetQuadWord | src/main/java/org/jpc/emulator/processor/Segment.java:103-110 | the low dword is read first, so its fault (translation, null memory or memory) comes before any fault of the wrapped `offset + 4`. It succeeds exactly when both translations and both dword reads do; the halves are the dwords read |
| Segment.SetByte | src/main/java/org/jpc/emulator/processor/Segment.java:112-115 | a translation fault leaves memory alone and is thrown; a null memory throws a null-pointer exception; otherwise the memory's own store, with any fault it raises and the memory it leaves |
| Segment.SetWord | src/main/java/org/jpc/emulator/processor/Segment.java:117-120 | the same three cases for words |
| Segment.SetDoubleWord | src/main/java/org/jpc/emulator/processor/Segment.java:122-125 | the same three cases for dwords |
| Segment.SetQuadWord | src/main/java/org/jpc/emulator/processor/Segment.java:127-133 | low half first, then high half; any fault of the low store is the result; a fault of the second translation or store leaves the low half stored. It completes exactly when both translations and both stores do |
| Segment.ByteRoundTrip | src/main/java/org/jpc/emulator/processor/Segment.java:88-115 | with agreeing translations and an address space whose completed stores read back, a byte store that completes reads back |
| Segment.WordRoundTrip | src/main/java/org/jpc/emulator/processor/Segment.java:93-120 | the same for words |
| Segment.DoubleWordRoundTrip | src/main/java/org/jpc/emulator/processor/Segment.java:98-125 | the same for dwords |
| Segment.QuadWordRoundTrip | src/main/java/org/jpc/emulator/processor/Segment.java:103-133 | a `setQuadWord` that completes is read back by `getQuadWord` when the two halves land on non-overlapping dwords |
| Segment.QuadWordTornWrite | src/main/java/org/jpc/emulator/processor/Segment.java:127-133 | a fault on the high translation fails the store, yet the low dword, if its store completed, reads back as written |
| Segment.RebindRedirectsReads | src/main/java/org/jpc/emulator/processor/Segment.java:53-101 | after `setAddressSpace` reads go to the new memory through the old translation; a null memory makes translated reads throw a null-pointer exception; translation faults are unchanged |
| SegmentFactory.TypeCode | src/main/java/org/jpc/emulator/processor/SegmentFactory.java:46-47 | the switch value is bits 40-44 of the descriptor |
| SegmentFactory.TypeCodeIgnoresOtherBits | src/main/java/org/jpc/emulator/processor/SegmentFactory.java:117-119 | descriptors that agree on bits 40-44 dispatch alike |
| SegmentFactory.Decode | src/main/java/org/jpc/emulator/processor/SegmentFactory.java:119-191 | the reserved system types 0x00, 0x08, 0x0A and 0x0D fault with GP(0). The five unimplemented data/code types are fatal. Every other code gives a class that is a system type iff the S flag is clear, code iff type bit 3 is set, and accessed iff type bit 0 is set |
| SegmentFactory.DecodeSystem | src/main/java/org/jpc/emulator/processor/SegmentFactory.java:122-155 | the S-flag-clear half: GP(0) exactly for the reserved codes, a system class otherwise |
| SegmentFactory.DecodeSegment | src/main/java/org/jpc/emulator/processor/SegmentFactory.java:156-191 | the S-flag-set half: an illegal-state error exactly for the unimplemented codes, otherwise a data or code class with the right code and accessed bits |
| SegmentFactory.CodeOf | src/main/java/org/jpc/emulator/processor/SegmentFactory.java:119-191 | the reference inverse: the type code of each class; system classes have codes below 0x10 |
| SegmentFactory.DecodeCodeOf | src/main/java/org/jpc/emulator/processor/SegmentFactory.java:119-191 | every class is produced from its own type code |
| SegmentFactory.CodeOfDecode | src/main/java/org/jpc/emulator/processor/SegmentFactory.java:119-191 | every successful dispatch yields the class of the code read |
| SegmentFactory.DecodeInjective | src/main/java/org/jpc/emulator/processor/SegmentFactory.java:119-191 | distinct implemented codes give distinct classes |
| SegmentFactory.CreateRealModeSegment | src/main/java/org/jpc/emulator/processor/SegmentFactory.java:85-99 | null memory throws a null-pointer exception; otherwise a real-mode segment over that memory and origin |
| SegmentFactory.CreateVirtual8086ModeSegment | src/main/java/org/jpc/emulator/processor/SegmentFactory.java:101-107 | the same null check, then a virtual-8086 segment |
| SegmentFactory.CreateDescriptorTableSegment | src/main/java/org/jpc/emulator/processor/SegmentFactory.java:109-115 | the same null check, then a descriptor-table segment |
| SegmentFactory.CreateProtectedModeSegment | src/main/java/org/jpc/emulator/processor/SegmentFactory.java:117-193 | no null check: the outcome is the dispatch of the descriptor's type code |
| SegmentFactory.ProtectedModeAcceptsNullMemory | src/main/java/org/jpc/emulator/processor/SegmentFactory.java:85-193 | for every implemented type, protected mode accepts null memory where real mode refuses it |
| SegmentFactory.NullSegmentCall | src/main/java/org/jpc/emulator/processor/SegmentFactory.java:232-318 | the NULL segment faults with GP(0) on type queries and address checks or translations. It fails fatally on base, limit, selector-setting and privilege queries, and answers selector 0, present and not-system |
| SegmentFactory.NullMessage | src/main/java/org/jpc/emulator/processor/SegmentFactory.java:262-308 | the fatal messages read "NULL segment ", the method name, "(): " and then the text of the NULL segment's class |
| ByteSourceWrappedMemory.Fresh | src/main/java/org/jpc/emulator/memory/codeblock/ByteSourceWrappedMemory.java:39-41 | a new cursor has no memory and `int` positions |
| ByteSourceWrappedMemory.Set | src/main/java/org/jpc/emulator/memory/codeblock/ByteSourceWrappedMemory.java:43-48 | binds the memory, moves to the offset, and makes `reset` return there |
| ByteSourceWrappedMemory.GetByte | src/main/java/org/jpc/emulator/memory/codeblock/ByteSourceWrappedMemory.java:55-58 | the offset advances by one (wrapping at `MAX_INT`) even when the read throws; null memory throws a null-pointer exception |
| ByteSourceWrappedMemory.Skip | src/main/java/org/jpc/emulator/memory/codeblock/ByteSourceWrappedMemory.java:60-65 | refuses, position unchanged, exactly when the wrapped target reaches the memory size; otherwise moves by `count` |
| ByteSourceWrappedMemory.Reset | src/main/java/org/jpc/emulator/memory/codeblock/ByteSourceWrappedMemory.java:67-70 | returns to the position recorded by `set`, nothing else changed |
| ByteSourceWrappedMemory.ResetIdempotent | src/main/java/org/jpc/emulator/memory/codeblock/ByteSourceWrappedMemory.java:67-70 | resetting twice is resetting once |
| ByteSourceWrappedMemory.Run | src/main/java/org/jpc/emulator/memory/codeblock/ByteSourceWrappedMemory.java:55-70 | any sequence of reads, skips and rewinds keeps both positions `int`s |
| ByteSourceWrappedMemory.RunKeepsStart | src/main/java/org/jpc/emulator/memory/codeblock/ByteSourceWrappedMemory.java:43-70 | whatever a decoder does, the cursor keeps its memory and `reset` still returns to the offset given to `set` |
| ByteSourceWrappedMemory.ReadsAdvance | src/main/java/org/jpc/emulator/memory/codeblock/ByteSourceWrappedMemory.java:55-58 | `n` successful reads away from the `int` limit advance the offset by exactly `n` |
| CodeBlockManager.New | src/main/java/org/jpc/emulator/memory/codeblock/CodeBlockManager.java:48-64 | one chain per mode, each with the optimising compiler and the `BLOCK_LIMIT` read at construction. Only protected mode uses the protected-mode decoder, and the cursor starts unbound |
| CodeBlockManager.TryFactory | src/main/java/org/jpc/emulator/memory/codeblock/CodeBlockManager.java:76-104 | the factory sees the freshly rebound cursor. Only `ArrayIndexOutOfBoundsException` is caught, and it becomes a spanning block over the mode's own chain. Blocks, nulls, replacements and other exceptions pass through |
| CodeBlockManager.GetCodeBlockAt | src/main/java/org/jpc/emulator/memory/codeblock/CodeBlockManager.java:112-157 | a null block becomes an illegal-state error with the mode's message. A block, a thrown exception and a `CodeBlockReplacementException` are each passed on unchanged |
| CodeBlockManager.GetRealModeCodeBlockAt | src/main/java/org/jpc/emulator/memory/codeblock/CodeBlockManager.java:112-122 | real mode: the factory's block, a real-mode spanning block over the real-mode chain on array overflow, or the "realmode" error on null |
| CodeBlockManager.GetProtectedModeCodeBlockAt | src/main/java/org/jpc/emulator/memory/codeblock/CodeBlockManager.java:131-140 | the same for protected mode, with the operand-size flag passed to the factory |
| CodeBlockManager.GetVirtual8086ModeCodeBlockAt | src/main/java/org/jpc/emulator/memory/codeblock/CodeBlockManager.java:148-157 | the same for virtual-8086 mode |
| CodeBlockManager.FactorySeesFreshCursor | src/main/java/org/jpc/emulator/memory/codeblock/CodeBlockManager.java:76-104 | the cursor handed to the factory is bound to the requested memory and offset, whatever it held before |
| CodeBlockManager.FetchNeverNull | src/main/java/org/jpc/emulator/memory/codeblock/CodeBlockManager.java:76-157 | a fetch returns a block exactly when the factory produced one or overflowed an array |
| CodeBlockManager.SkipOverflowPropagates | src/main/java/org/jpc/emulator/memory/codeblock/CodeBlockManager.java:76-84 | the cursor's plain `IndexOutOfBoundsException` is not turned into a spanning block |
| CodeBlockManager.SpanningUsesOwnChain | src/main/java/org/jpc/emulator/memory/codeblock/CodeBlockManager.java:57-104 | on a fresh manager, a spanning block carries one chain, with its own mode's decoder and the block limit |
| KeyboardQueue.Contents | src/main/java/org/jpc/emulator/peripheral/Keyboard.java:763-880 | the abstract FIFO has as many entries as the ring's length |
| KeyboardQueue.Slot | src/main/java/org/jpc/emulator/peripheral/Keyboard.java:846-876 | the ring index of the i-th oldest entry is always inside the 256-slot array |
| KeyboardQueue.New | src/main/java/org/jpc/emulator/peripheral/Keyboard.java:815-823 | a valid, empty ring |
| KeyboardQueue.Reset | src/main/java/org/jpc/emulator/peripheral/Keyboard.java:825-832 | empties the queue, positions at 0, array bytes kept |
| KeyboardQueue.GetAux | src/main/java/org/jpc/emulator/peripheral/Keyboard.java:834-839 | on a non-empty queue, the origin of the oldest entry |
| KeyboardQueue.ReadData | src/main/java/org/jpc/emulator/peripheral/Keyboard.java:841-864 | an empty queue returns the byte of the slot before the read position, with nothing changed. Otherwise it returns and dequeues the oldest byte, lowering IRQ 12 for a mouse byte and IRQ 1 otherwise |
| KeyboardQueue.DequeueShifts | src/main/java/org/jpc/emulator/peripheral/Keyboard.java:846-862 | advancing the read position drops the oldest entry of the FIFO |
| KeyboardQueue.WriteData | src/main/java/org/jpc/emulator/peripheral/Keyboard.java:866-878 | a full queue drops the byte; otherwise the entry is appended to the FIFO |
| KeyboardQueue.EnqueueAppends | src/main/java/org/jpc/emulator/peripheral/Keyboard.java:870-876 | writing at the write position appends exactly one entry |
| KeyboardQueue.FifoOrder | src/main/java/org/jpc/emulator/peripheral/Keyboard.java:841-878 | a byte written into the queue is read after the bytes already there |
| KeyboardQueue.Drain | src/main/java/org/jpc/emulator/peripheral/Keyboard.java:841-864 | reading the queue dry returns its data bytes oldest first |
| Keyboard.Reset | src/main/java/org/jpc/emulator/peripheral/Keyboard.java:338-371 | every collaborator unbound (so `initialised` is false), mode `KBD_INT \| MOUSE_INT` (3), status `CMD \| UNLOCKED` (0x18), an empty queue, every keyboard and mouse field zero, and the next stream send -1 |
| Keyboard.AcceptComponent | src/main/java/org/jpc/emulator/peripheral/Keyboard.java:990-1015 | binds an initialised interrupt controller, port handler, processor or clock, and any address space; other flags kept. Binding the clock starts the mouse stream at the current time with buttons 0; nothing else changes |
| Keyboard.AcceptAllInitialises | src/main/java/org/jpc/emulator/peripheral/Keyboard.java:985-1015 | offering all six collaborators, initialised, makes the controller `initialised` |
| Keyboard.BufferStatus | src/main/java/org/jpc/emulator/peripheral/Keyboard.java:741-761 | OBF set iff a byte is pending, MOUSE_OBF iff it is a mouse byte, other status bits kept |
| Keyboard.UpdateIRQ | src/main/java/org/jpc/emulator/peripheral/Keyboard.java:741-761 | recomputes the buffer bits in every case. With an interrupt controller bound: IRQ 12 is high iff a mouse byte is pending with mouse interrupts on, IRQ 1 iff a keyboard byte is pending with keyboard interrupts on and the keyboard enabled, never both. Without one it throws a null-pointer exception, the lines unchanged |
| Keyboard.Push | src/main/java/org/jpc/emulator/peripheral/Keyboard.java:866-878 | appends the entry when there is room, then updates the interrupts, throwing iff no interrupt controller is bound; a full queue leaves the controller as it was, without a fault |
| Keyboard.ReadData | src/main/java/org/jpc/emulator/peripheral/Keyboard.java:378-383 | drops the oldest entry and returns the queue's read; throws a null-pointer exception iff no interrupt controller is bound, the byte then lost |
| Keyboard.OutputPort | src/main/java/org/jpc/emulator/peripheral/Keyboard.java:455-463 | bit 0 set, bit 1 the A20 state, bits 4 and 5 the two buffer-full flags, the rest clear |
| Keyboard.WriteCommand | src/main/java/org/jpc/emulator/peripheral/Keyboard.java:415-480 | asks the A20 gate to change exactly for 0xDD/0xDF with the address space bound (enabled for 0xDF), and resets the processor exactly for 0xFE with it bound. A gate or processor command with that collaborator unbound throws before changing anything; with every collaborator it calls bound, no command faults |
| Keyboard.AnswerCommand | src/main/java/org/jpc/emulator/peripheral/Keyboard.java:418-463 | queueing a reply keeps the queue invariant and the bindings; it can only fault for want of an interrupt controller |
| Keyboard.InterfaceCommand | src/main/java/org/jpc/emulator/peripheral/Keyboard.java:428-451 | an interface enable or disable keeps the queue invariant and the bindings; it can only fault for want of an interrupt controller |
| Keyboard.CommandLatchesArgument | src/main/java/org/jpc/emulator/peripheral/Keyboard.java:421-427 | the five argument-taking commands only latch themselves as the pending command |
| Keyboard.CommandQueuesReply | src/main/java/org/jpc/emulator/peripheral/Keyboard.java:418-463 | the answering commands append their reply as a keyboard byte and set OBF, throwing afterwards iff no interrupt controller is bound; the self test also sets the self-test bit |
| Keyboard.InterfaceModeBits | src/main/java/org/jpc/emulator/peripheral/Keyboard.java:428-451 | interface commands change only their own disable bit: disable sets it, enable clears it |
| Keyboard.InterfaceCommands | src/main/java/org/jpc/emulator/peripheral/Keyboard.java:428-451 | the mouse commands change only the mode register; the keyboard commands also recompute the interrupts, and disabling the keyboard with an interrupt controller bound lowers IRQ 1 |
| Keyboard.OtherCommandsKeepState | src/main/java/org/jpc/emulator/peripheral/Keyboard.java:415-480 | every other command leaves the controller unchanged |
| Keyboard.MouseDisableEnable | src/main/java/org/jpc/emulator/peripheral/Keyboard.java:428-433 | disabling then enabling the mouse interface completes and restores the controller |
| Keyboard.ResetUnbinds | src/main/java/org/jpc/emulator/peripheral/Keyboard.java:338-345 | after `reset`, interrupt updates, port-0x60 reads, the A20 commands and the reset command all throw null-pointer exceptions |
| Keyboard.Scale2 | src/main/java/org/jpc/emulator/peripheral/Keyboard.java:657-673 | within -5..5 the table keeps sign and zero with magnitude at most 9; elsewhere the value is doubled |
| Keyboard.Scale2Odd | src/main/java/org/jpc/emulator/peripheral/Keyboard.java:657-673 | scaling is odd away from the `int` wrap |
| Keyboard.Scale2Monotone | src/main/java/org/jpc/emulator/peripheral/Keyboard.java:657-673 | scaling preserves order away from the `int` wrap |
| Keyboard.Clamp | src/main/java/org/jpc/emulator/peripheral/Keyboard.java:688-708 | within the bound, sign and zero kept, values inside unchanged |
| Keyboard.PacketDeltas | src/main/java/org/jpc/emulator/peripheral/Keyboard.java:678-708 | the motion sent fits the packet (±255 for X and Y, ±7 for Z); unscaled packets carry the clamped accumulators |
| Keyboard.PacketHeader | src/main/java/org/jpc/emulator/peripheral/Keyboard.java:709-715 | bit 3 set, bits 4 and 5 the X and Y signs, bits 0-2 the buttons, bits 6-7 clear |
| Keyboard.MouseSendPacket | src/main/java/org/jpc/emulator/peripheral/Keyboard.java:675-739 | a completed send subtracts the sent motion from the accumulators (X and Y wrapping as `int`s). It throws iff no interrupt controller is bound and the queue has room, and then the motion is kept; mode, mouse status and buttons unchanged |
| Keyboard.PushPacket | src/main/java/org/jpc/emulator/peripheral/Keyboard.java:717-733 | pushing packet bytes changes neither the mode nor the mouse state, and throws iff a byte is queued with no interrupt controller bound |
| Keyboard.MouseEntries | src/main/java/org/jpc/emulator/peripheral/Keyboard.java:717-733 | each packet byte becomes a queue entry marked as a mouse byte |
| Keyboard.PushPacketAppends | src/main/java/org/jpc/emulator/peripheral/Keyboard.java:717-733 | with an interrupt controller bound and room in the queue, the packet lands intact at the tail |
| Keyboard.PacketQueued | src/main/java/org/jpc/emulator/peripheral/Keyboard.java:675-739 | a packet sent with room and an interrupt controller appends header, X and Y as mouse bytes |
| Keyboard.UnboundPacketStopsAtHeader | src/main/java/org/jpc/emulator/peripheral/Keyboard.java:717-733 | with no interrupt controller and room in the queue, only the packet header is queued before the fault |
| Keyboard.UnscaledSendingConverges | src/main/java/org/jpc/emulator/peripheral/Keyboard.java:963-982 | with 1:1 scaling each completed packet strictly reduces the pending motion, so the send loop of `putMouseEvent` ends |
| Keyboard.ScaledSendingOscillates | src/main/java/org/jpc/emulator/peripheral/Keyboard.java:963-982 | with 2:1 scaling a pending X motion of 6 is sent as 12 and then -12, returning to 6, so that loop does not end |
| KeyboardEvents.EventTimeLowBound | src/main/java/org/jpc/emulator/peripheral/Keyboard.java:1194-1206 | mouse events keep their stamp; keyboard events are held at the time bound when it has not passed, and are otherwise rounded up in Java `long` arithmetic, never earlier than the stamp unless that rounding overflows |
| KeyboardEvents.LowBoundIsNextGridPoint | src/main/java/org/jpc/emulator/peripheral/Keyboard.java:1202-1205 | past the bound and away from the `long` overflow, a keyboard event moves to the first multiple of 66666 at or after its stamp, negative stamps included |
| KeyboardEvents.RoundUpOnGrid | src/main/java/org/jpc/emulator/peripheral/Keyboard.java:1205 | the amount added by the truncating-remainder expression is under one grid step and lands the stamp on the grid, for negative stamps too |
| KeyboardEvents.LowBoundWrapsAtMaxLong | src/main/java/org/jpc/emulator/peripheral/Keyboard.java:1202-1205 | a keyboard event stamped `Long.MAX_VALUE` past the bound gets a negative low bound, because the rounding overflows |
| KeyboardEvents.ValidateEvent | src/main/java/org/jpc/emulator/peripheral/Keyboard.java:1067-1192 | empty and unknown events are refused with their messages, and every refusal is an `IOException`. PAUSE is accepted iff not held back, argument-free and on the grid. An off-grid KEYEDGE message suggests the grid points of `Suggestions` |
| KeyboardEvents.Suggestions | src/main/java/org/jpc/emulator/peripheral/Keyboard.java:1087-1090 | the first suggestion is a grid point within one step of the stamp, on the side of zero. For a `long` stamp both are `long`s, and the second is one step later, wrapped past `Long.MAX_VALUE` |
| KeyboardEvents.TruncatedGridPoint | src/main/java/org/jpc/emulator/peripheral/Keyboard.java:1088-1089 | taking off Java's truncating remainder lands on a grid point within one step of the stamp, for negative stamps too |
| KeyboardEvents.SuggestionWrapsAtMaxLong | src/main/java/org/jpc/emulator/peripheral/Keyboard.java:1087-1090 | at `Long.MAX_VALUE` the second suggestion overflows to a negative time |
| KeyboardEvents.ParsedInRange | src/main/java/org/jpc/emulator/peripheral/Keyboard.java:1136-1189 | a mouse event is accepted iff its first argument parses into the range; every failure gives the event's one message |
| KeyboardEvents.KeyEdgeAcceptance | src/main/java/org/jpc/emulator/peripheral/Keyboard.java:1082-1102 | KEYEDGE is accepted iff not held back, with one argument, on the grid, naming a key 1-95 or 129-223 other than 84 and 198 |
| KeyboardEvents.OnGrid | src/main/java/org/jpc/emulator/peripheral/Keyboard.java:1074 | Java's remainder is zero exactly when the Euclidean one is |
| KeyboardEvents.KeyNumberRanges | src/main/java/org/jpc/emulator/peripheral/Keyboard.java:1093-1099 | the key-number predicate is the source's two ranges less its two exclusions |
| KeyboardEvents.MouseEventsUnclocked | src/main/java/org/jpc/emulator/peripheral/Keyboard.java:1136-1206 | neither time nor time bound affects mouse events |
| KeyboardEvents.LowBoundIsAcceptable | src/main/java/org/jpc/emulator/peripheral/Keyboard.java:1067-1206 | a well-formed keyboard event placed at its low bound is accepted whenever the bound is on the grid and the rounding does not overflow |
| PciDevice.New | src/main/java/org/jpc/emulator/pci/AbstractPCIDevice.java:88-92 | a zeroed 256-byte configuration space, not registered |
| PciDevice.Deassign | src/main/java/org/jpc/emulator/pci/AbstractPCIDevice.java:111-115 | unregistered at device/function -1, configuration kept |
| PciDevice.CheckConfigWriteRefusesReadOnly | src/main/java/org/jpc/emulator/pci/AbstractPCIDevice.java:117-198 | the write check refuses exactly the read-only registers of the header type in force, and never allows the header-type byte |
| PciDevice.ConfigReadByte | src/main/java/org/jpc/emulator/pci/AbstractPCIDevice.java:265-268 | succeeds exactly inside the array, else an array-index exception |
| PciDevice.ConfigReadWord | src/main/java/org/jpc/emulator/pci/AbstractPCIDevice.java:270-276 | succeeds exactly when both bytes are inside |
| PciDevice.ConfigReadLong | src/main/java/org/jpc/emulator/pci/AbstractPCIDevice.java:278-284 | succeeds exactly when all four bytes are inside |
| PciDevice.PutConfigByte | src/main/java/org/jpc/emulator/pci/AbstractPCIDevice.java:286-289 | stores the byte and nothing else, or throws with nothing changed |
| PciDevice.PutConfigWord | src/main/java/org/jpc/emulator/pci/AbstractPCIDevice.java:291-297 | touches only its two bytes; succeeds exactly when both are inside |
| PciDevice.PutConfigLong | src/main/java/org/jpc/emulator/pci/AbstractPCIDevice.java:299-305 | touches only its four bytes; succeeds exactly when all are inside |
| PciDevice.PutThenReadWord | src/main/java/org/jpc/emulator/pci/AbstractPCIDevice.java:270-297 | a word stored reads back (both little-endian) |
| PciDevice.PutThenReadLong | src/main/java/org/jpc/emulator/pci/AbstractPCIDevice.java:278-305 | a dword stored reads back |
| PciDevice.PutLongWords | src/main/java/org/jpc/emulator/pci/AbstractPCIDevice.java:270-305 | after a dword store each of its words reads back |
| PciDevice.ReadLongOfWords | src/main/java/org/jpc/emulator/pci/AbstractPCIDevice.java:278-284 | a dword read joins its two word reads |
| PciDevice.ConfigWriteByte | src/main/java/org/jpc/emulator/pci/AbstractPCIDevice.java:200-210 | stores a writable byte inside the array; leaves read-only bytes alone; asks for remapping iff the byte is in the command register |
| PciDevice.StoreIfWritable | src/main/java/org/jpc/emulator/pci/AbstractPCIDevice.java:217-222 | one loop step: the byte is stored iff writable, never the header-type byte; an index outside the array fails |
| PciDevice.WriteBytes | src/main/java/org/jpc/emulator/pci/AbstractPCIDevice.java:212-263 | the byte loop writes exactly the writable bytes of the range. It fails iff the range leaves the array, with the bytes before the failure stored |
| PciDevice.BytesWrittenStep | src/main/java/org/jpc/emulator/pci/AbstractPCIDevice.java:217-222 | one more iteration extends the written prefix by its byte |
| PciDevice.BytesWrittenBeyondArray | src/main/java/org/jpc/emulator/pci/AbstractPCIDevice.java:217-222 | when the loop stops outside the array, no further byte of the range could have landed |
| PciDevice.ConfigWriteWord | src/main/java/org/jpc/emulator/pci/AbstractPCIDevice.java:212-227 | the two bytes low first, each checked; remap iff the word overlaps the command register |
| PciDevice.RegionIndex | src/main/java/org/jpc/emulator/pci/AbstractPCIDevice.java:231-236 | a base-address-register address selects slot 0-5, the ROM register selects slot 6 |
| PciDevice.BarValue | src/main/java/org/jpc/emulator/pci/AbstractPCIDevice.java:236-246 | a BAR keeps the data bits (and type bits) above its region size and exactly the type bits below it. The ROM register keeps the data bits above the size and, below it, only the enable bit 0 of the data |
| PciDevice.ConfigWriteLong | src/main/java/org/jpc/emulator/pci/AbstractPCIDevice.java:229-263 | a BAR or ROM register with a region is stored masked and whole, bypassing the read-only check, and always asks for remapping. Any other dword is written byte-wise |
| PciDevice.BarSizing | src/main/java/org/jpc/emulator/pci/AbstractPCIDevice.java:229-248 | writing all ones to a BAR with a region reads back the complement of size-1 with the type bits |
| PciDevice.BarKeepsType | src/main/java/org/jpc/emulator/pci/AbstractPCIDevice.java:236-246 | whatever is written to a BAR, its type bits stay set and the bits below the region size are exactly the type bits |
| PciDevice.RomSizing | src/main/java/org/jpc/emulator/pci/AbstractPCIDevice.java:229-248 | writing all ones to the ROM register with a region reads back the complement of size-1 with the enable bit, and no type bits |
| PciDevice.ByteWritesKeepReadOnly | src/main/java/org/jpc/emulator/pci/AbstractPCIDevice.java:117-227 | the byte-wise paths never alter a read-only byte |
| PciHostBridge.PortsRequested | src/main/java/org/jpc/emulator/pci/PCIHostBridge.java:121-124 | exactly the eight ports 0xCF8-0xCFF, in order |
| PciHostBridge.Identify | src/main/java/org/jpc/emulator/pci/PCIHostBridge.java:87-98 | reads back vendor 0x8086, device 0x1237, revision 2, class 0x0600 and header type 0; other bytes kept |
| PciHostBridge.IdentifyReadsBack | src/main/java/org/jpc/emulator/pci/PCIHostBridge.java:91-96 | each identity register reads back after the five stores |
| PciHostBridge.WordUntouched | src/main/java/org/jpc/emulator/pci/AbstractPCIDevice.java:270-276 | a word read depends only on its own two bytes |
| PciHostBridge.New | src/main/java/org/jpc/emulator/pci/PCIHostBridge.java:87-98 | device/function 0, identity programmed, disabled address register, no bus, not initialised |
| PciHostBridge.Reset | src/main/java/org/jpc/emulator/pci/PCIHostBridge.java:238-251 | detaches the bus and clears both registrations. It returns to device/function 0 and reprograms the identity; the address register and the other configuration bytes are kept |
| PciHostBridge.Deassign | src/main/java/org/jpc/emulator/pci/PCIHostBridge.java:105-108 | the override only warns: the bridge keeps its number and registration |
| PciHostBridge.IoPortWrite | src/main/java/org/jpc/emulator/pci/PCIHostBridge.java:126-172 | a dword to 0xCF8-0xCFB latches the address register; nothing else changes the bridge. With the enable bit set, data ports write to the bus at the latched address plus the port offset, with data narrowed to the width, or hit null with no bus |
| PciHostBridge.IoPortRead | src/main/java/org/jpc/emulator/pci/PCIHostBridge.java:174-226 | a dword from the address ports returns the register. Enabled data ports return the bus's answer narrowed to the width; everything else floats to all ones of the width |
| PciHostBridge.AddressRegisterRoundTrip | src/main/java/org/jpc/emulator/pci/PCIHostBridge.java:154-222 | a dword written to any address port reads back from any address port |
| PciHostBridge.NarrowWritesIgnored | src/main/java/org/jpc/emulator/pci/PCIHostBridge.java:126-152 | byte and word writes never move the address register |
| PciHostBridge.ReadsFitWidth | src/main/java/org/jpc/emulator/pci/PCIHostBridge.java:174-206 | byte and word reads fit their width |
| PciHostBridge.EnableBitGates | src/main/java/org/jpc/emulator/pci/PCIHostBridge.java:126-226 | a data-port access reaches the bus iff bit 31 of the address register is set |
| PciHostBridge.BusAddressSelectsByte | src/main/java/org/jpc/emulator/pci/PCIHostBridge.java:126-226 | with a dword-aligned address register, the bus address is the register with the port's offset in its low two bits |
| GateA20.New | src/main/java/org/jpc/emulator/motherboard/GateA20Handler.java:49-54 | nothing bound, not initialised |
| GateA20.Reset | src/main/java/org/jpc/emulator/motherboard/GateA20Handler.java:160-165 | unbinds everything; not initialised |
| GateA20.PortsRequested | src/main/java/org/jpc/emulator/motherboard/GateA20Handler.java:135-138 | port 0x92 only |
| GateA20.IoPortWrite | src/main/java/org/jpc/emulator/motherboard/GateA20Handler.java:101-114 | at any width bit 1 sets the A20 line, and bit 0 resets the processor. Without an address space it throws before any change; without a processor it throws only on a reset, after A20 moved |
| GateA20.IoPortRead | src/main/java/org/jpc/emulator/motherboard/GateA20Handler.java:122-133 | the low byte is 0x02 iff A20 is enabled and 0 otherwise; the upper bytes of a word or dword are all ones; without an address space it throws |
| GateA20.WriteThenRead | src/main/java/org/jpc/emulator/motherboard/GateA20Handler.java:101-133 | a read after any write returns bit 1 of the data written, at every width |
| GateA20.WriteUsesLowBits | src/main/java/org/jpc/emulator/motherboard/GateA20Handler.java:101-114 | a write depends only on the low two data bits, not on width or port |
| GateA20.WideReadsPadByte | src/main/java/org/jpc/emulator/motherboard/GateA20Handler.java:126-133 | word and dword reads are the byte read with the padding |
| PcSpeaker.New | src/main/java/org/jpc/emulator/peripheral/PCSpeaker.java:52-60 | mode 0, line and timer input high, one initial low frame at time 0 |
| PcSpeaker.Reset | src/main/java/org/jpc/emulator/peripheral/PCSpeaker.java:180-185 | unbinds the timer and the clock and clears the port registration; mode, line and refresh bit kept |
| PcSpeaker.PortsRequested | src/main/java/org/jpc/emulator/peripheral/PCSpeaker.java:108-111 | port 0x61 only |
| PcSpeaker.Line | src/main/java/org/jpc/emulator/peripheral/PCSpeaker.java:160-166 | high while off (bit 1 clear), low while on without the timer, the timer's input with both bits set |
| PcSpeaker.UpdateSpeaker | src/main/java/org/jpc/emulator/peripheral/PCSpeaker.java:154-173 | records the new line. It emits the old and the new level at the clock time iff the line changed; without a clock it throws with nothing recorded |
| PcSpeaker.WriteByte | src/main/java/org/jpc/emulator/peripheral/PCSpeaker.java:130-135 | gates timer channel 2 with bit 0, stores the low two bits as the mode, and updates the line; without a timer it throws before any change |
| PcSpeaker.WriteWord | src/main/java/org/jpc/emulator/peripheral/PCSpeaker.java:137-141 | two byte writes. Without a timer it throws before any change. With timer and clock, the mode ends as bits 8-9 and the line as that mode gives it, after two gate settings |
| PcSpeaker.WriteLong | src/main/java/org/jpc/emulator/peripheral/PCSpeaker.java:142-146 | four byte writes. Without a timer it throws before any change. With timer and clock, the mode ends as bits 24-25 and the line as that mode gives it, after four gate settings, the last from bit 24 |
| PcSpeaker.SetPitInput | src/main/java/org/jpc/emulator/peripheral/PCSpeaker.java:148-152 | records the timer output and updates the line; the mode is kept |
| PcSpeaker.ReadByte | src/main/java/org/jpc/emulator/peripheral/PCSpeaker.java:113-118 | flips the refresh bit, then returns the mode, the refresh bit in bit 4 and the timer output in bit 5 |
| PcSpeaker.ReadWord | src/main/java/org/jpc/emulator/peripheral/PCSpeaker.java:119-123 | two byte reads: the low byte carries the toggled refresh bit and the high byte the original one, each lane the mode with the timer output in bit 5 and refresh in bit 4; the speaker is unchanged |
| PcSpeaker.ReadLong | src/main/java/org/jpc/emulator/peripheral/PCSpeaker.java:124-128 | four byte reads: bytes 0 and 2 carry the toggled refresh bit, bytes 1 and 3 the original one, each lane as in a byte read; the speaker is unchanged |
| PcSpeaker.WriteThenReadMode | src/main/java/org/jpc/emulator/peripheral/PCSpeaker.java:113-135 | the mode written reads back in bits 0-1 |
| PcSpeaker.RefreshToggles | src/main/java/org/jpc/emulator/peripheral/PCSpeaker.java:113-118 | consecutive byte reads differ in bit 4 |
| PcSpeaker.WordReadTogglesTwice | src/main/java/org/jpc/emulator/peripheral/PCSpeaker.java:119-123 | the two bytes of a word read carry opposite refresh bits |
| PcSpeaker.FollowsTimer | src/main/java/org/jpc/emulator/peripheral/PCSpeaker.java:148-173 | with both mode bits set the line follows the timer, and a frame pair is emitted iff it changed |
| PcSpeaker.OffIgnoresTimer | src/main/java/org/jpc/emulator/peripheral/PCSpeaker.java:148-173 | while off, the timer never reaches the line and nothing is emitted |
| VgaOut.New | src/main/java/org/jpc/emulator/VGADigitalOut.java:132-136 | a one-pixel buffer, all sizes zero |
| VgaOut.RgbToPixel | src/main/java/org/jpc/emulator/VGADigitalOut.java:138-141 | the pixel's three bytes are the low bytes of red, green and blue; the top byte is zero |
| VgaOut.PixelChannelsDetermine | src/main/java/org/jpc/emulator/VGADigitalOut.java:138-141 | two pixels are equal iff their channels agree in the low byte |
| VgaOut.ResizeDisplay | src/main/java/org/jpc/emulator/VGADigitalOut.java:143-156 | a negative product fails the allocation. Otherwise the display takes the new size, a zeroed buffer of `width * height` pixels (one when the product is zero), and a dirty region covering the whole display |
| VgaOut.DirtyDisplayRegion | src/main/java/org/jpc/emulator/VGADigitalOut.java:163-169 | the dirty rectangle becomes the bounding box of the old one and the new region |
| VgaOut.BoundingBox | src/main/java/org/jpc/emulator/VGADigitalOut.java:163-169 | the reference: covers both rectangles and is covered by every rectangle that covers both |
| VgaOut.ResetDirtyRegion | src/main/java/org/jpc/emulator/VGADigitalOut.java:171-177 | the inverted rectangle (width, height)-(0, 0); buffer and size kept |
| VgaOut.DirtyIdempotent | src/main/java/org/jpc/emulator/VGADigitalOut.java:163-169 | marking a region twice is marking it once |
| VgaOut.DirtyCommutes | src/main/java/org/jpc/emulator/VGADigitalOut.java:163-169 | the order of marks does not matter |
| VgaOut.ResetThenDirtyIsExact | src/main/java/org/jpc/emulator/VGADigitalOut.java:163-177 | after a reset, one region inside the display becomes the dirty rectangle exactly |
| VgaOut.ResizeCoversRegions | src/main/java/org/jpc/emulator/VGADigitalOut.java:143-169 | after a resize, regions inside the display leave it wholly dirty |
| EpromMemory.CopyCount | src/main/java/org/jpc/emulator/memory/EPROMMemory.java:97 | the copied count is the least of the room after `base`, the length asked for, and the bytes left in the source |
| EpromMemory.Construct | src/main/java/org/jpc/emulator/memory/EPROMMemory.java:94-98 | a negative size fails the allocation; negative base, offset or count fail the copy. Otherwise `size` bytes with the copied fragment at `base` and zero elsewhere, no cached blocks |
| EpromMemory.FromArray | src/main/java/org/jpc/emulator/memory/EPROMMemory.java:55-58 | a negative length fails the allocation; otherwise it succeeds iff the offset lies within the source. The memory then holds `length` bytes: the source bytes from `offset`, and zero past the source's end |
| EpromMemory.SetByte | src/main/java/org/jpc/emulator/memory/EPROMMemory.java:103-106 | ignored silently |
| EpromMemory.SetWord | src/main/java/org/jpc/emulator/memory/EPROMMemory.java:111-114 | ignored silently |
| EpromMemory.SetDoubleWord | src/main/java/org/jpc/emulator/memory/EPROMMemory.java:119-122 | ignored with a warning about 4 bytes at the offset |
| EpromMemory.CopyArrayIntoContents | src/main/java/org/jpc/emulator/memory/EPROMMemory.java:127-130 | ignored with a warning about `len` bytes at the address |
| EpromMemory.Clear | src/main/java/org/jpc/emulator/memory/EPROMMemory.java:132-135 | drops the cached blocks and keeps the contents |
| EpromMemory.WritesNeverChangeContents | src/main/java/org/jpc/emulator/memory/EPROMMemory.java:103-130 | no sequence of writes changes the contents; exactly the dword and block writes warn, one warning each |
| EpromMemory.WarnedWrites | src/main/java/org/jpc/emulator/memory/EPROMMemory.java:119-130 | the writes that warn are the dword and block writes |
| StatusDumper.Render | src/main/java/org/jpc/emulator/StatusDumper.java:192-207 | "NULL", or the class name, then '-', then the number. The text begins with the class name, and for a non-negative number the digits after the '-' read back as the number |
| StatusDumper.RenderIsInjective | src/main/java/org/jpc/emulator/StatusDumper.java:192-207 | two names whose class names contain no '-' and whose numbers are not negative have equal texts only if they are equal |
| Jvm.DigitsRoundTrip | src/main/java/org/jpc/emulator/StatusDumper.java:203-207 | the decimal text Java gives an object number in a string concatenation denotes that number and has no leading zero |
| StatusDumper.New | src/main/java/org/jpc/emulator/StatusDumper.java:58-66 | empty tables, indentation -1, no objects counted |
| StatusDumper.NewIsValid | src/main/java/org/jpc/emulator/StatusDumper.java:58-66 | the empty tables satisfy the numbering invariant |
| StatusDumper.FindIn | src/main/java/org/jpc/emulator/StatusDumper.java:178-184 | the chain walk finds the object's entry by identity, or shows there is none |
| StatusDumper.LookupObject | src/main/java/org/jpc/emulator/StatusDumper.java:173-185 | an object has a name iff some chain holds an entry for it, and that entry carries the name |
| StatusDumper.LookupAgrees | src/main/java/org/jpc/emulator/StatusDumper.java:173-185 | searching only the chain of the object's hash code is enough |
| StatusDumper.AddObject | src/main/java/org/jpc/emulator/StatusDumper.java:158-171 | adds exactly one entry; nothing else changes |
| StatusDumper.AddObjectEntries | src/main/java/org/jpc/emulator/StatusDumper.java:158-171 | pushing onto the front of a chain adds exactly that entry |
| StatusDumper.ObjectNumber | src/main/java/org/jpc/emulator/StatusDumper.java:187-213 | "NULL" for null, and a known object's name with nothing changed. A new object gets the next unused number of its class and is entered in the chains and the not-dumped table; the invariant holds |
| StatusDumper.NumberingKeepsValid | src/main/java/org/jpc/emulator/StatusDumper.java:199-211 | numbering a new object keeps the invariant, under a fresh name |
| StatusDumper.NewNameUnused | src/main/java/org/jpc/emulator/StatusDumper.java:201-207 | the class's next number is not yet taken |
| StatusDumper.EntriesStayValid | src/main/java/org/jpc/emulator/StatusDumper.java:199-211 | entering a new object under a new name keeps objects and names unique, typed and counted |
| StatusDumper.ChainsStayHashed | src/main/java/org/jpc/emulator/StatusDumper.java:158-171 | every entry stays in the chain of its hash code |
| StatusDumper.CountsStayCovered | src/main/java/org/jpc/emulator/StatusDumper.java:201-207 | the names of a class stay exactly 1 up to its count |
| StatusDumper.NumberingIsStable | src/main/java/org/jpc/emulator/StatusDumper.java:187-213 | numbering an object twice gives the same name and changes nothing the second time |
| StatusDumper.DistinctObjectsDistinctNames | src/main/java/org/jpc/emulator/StatusDumper.java:187-213 | different objects receive different names |
| StatusDumper.ClassNamesAreCounted | src/main/java/org/jpc/emulator/StatusDumper.java:199-208 | the names of class c are "c-1" to "c-N" for its count N, so "c-k" goes to the k-th object of the class |
| StatusDumper.Dumped | src/main/java/org/jpc/emulator/StatusDumper.java:215-228 | null throws a null-pointer exception (it has no flag). Otherwise it answers whether the object was dumped before; the first time it marks it, counts it and indents once more, and a repeat changes nothing |
| StatusDumper.NumberedFlag | src/main/java/org/jpc/emulator/StatusDumper.java:187-220 | after numbering, the object's flag is its dumped state and the lookup finds its name |
| StatusDumper.MarkDumped | src/main/java/org/jpc/emulator/StatusDumper.java:221-225 | sets the flag, counts one more object, indents once more, and keeps the invariant |
| StatusDumper.EndObject | src/main/java/org/jpc/emulator/StatusDumper.java:230-234 | one indentation level less, nothing else changed |
| StatusDumper.DumpedOnce | src/main/java/org/jpc/emulator/StatusDumper.java:215-234 | a second `dumped` of an object answers true and changes nothing; `endObject` after the first restores the indentation |
| IoPort.Ones | src/main/java/org/jpc/emulator/pci/PCIHostBridge.java:186-226 | the floating value of a width is 0xff for a byte, 0xffff for a word and 0xffffffff for a dword, each a run of low one bits |
| IoPort.OnesMaskFits | src/main/java/org/jpc/emulator/pci/PCIHostBridge.java:186-226 | masking with a width's floating value keeps exactly the bits of that width: a value is unchanged iff it fits the width |

## Left out

- The rest of the emulator is outside this model: the processor, the instruction decoders and the compiler. So are the interrupt controller, the interval timer, the clock, the address spaces, `LazyCodeBlockMemory` and the PCI bus. They appear only as the parameters described above.
- `LazyCodeBlockMemory` is taken to allocate zeroed bytes and to copy as `System.arraycopy` does; its block cache is only a set of offsets.
- `PCIDevice.java` is not part of this model. The PCI register offsets and header types are taken from section 6.1 of the PCI Local Bus Specification 3.0 (the expansion ROM register at offset 0x30 among them). Slot 6 for the ROM region is the index the device's own region array uses.
- Status output is not modelled because it is text only: every `dumpStatus`, `println` and `System.err` warning text, and the dump text of `StatusDumper`.
- Save/restore (`dumpSRPartial` and the loading constructors) is modelled only for the timer queue. The other classes' save streams are field-by-field copies.
- `acceptComponent` and `reset` are modelled through bound/unbound flags. The timer `acceptComponent` creates for the clock and its expiry are not modelled, nor is the registration with the port handler beyond its flag.
- `synchronized` blocks are not modelled: every operation is atomic.
- `Keyboard.writeData`, `writeKeyboard` and `writeMouse` (the port-0x60 argument protocols) are not modelled, because they are large device state machines outside the controller's queue and interrupt logic. So are `callback`, `keyPressed`/`keyReleased` and `putKeyboardEvent`.
- `Keyboard.putMouseEvent` is not modelled as an operation, because under 2:1 scaling its loop need not terminate. `Keyboard.UnscaledSendingConverges` and `Keyboard.ScaledSendingOscillates` state when it ends and when it does not.
- `KeyboardEvents.ValidateEvent`: only the validation of `doEvent` is modelled. Key, button and motion state changes and the new time bound an accepted event sets are not. The event level enters only as the flag saying whether the time bound applies. `Integer.parseInt` is a parameter.
- The PC speaker reads one timer output per access, and `Line` / `UpdateSpeaker` use one clock time per access; the real timer could change between the two byte reads of a word.
- `PcSpeaker.WriteWord`: the shifts are logical where Java's `>>` is arithmetic; only bits 0-1 of the shifted value are used, and they agree.
- `Keyboard.Scale2Odd` and `Keyboard.Scale2Monotone` are stated only away from the `int` wrap of the doubling; `Scale2` itself wraps as Java does.
- `VgaOut.ResizeDisplay`, `VgaOut.DirtyDisplayRegion` require that `width * height`, `x + w` and `y + h` do not overflow an `int`. With overflow, Java's values wrap; that case is not modelled.
- `StatusDumper.ObjectNumber`: the per-class counter is unbounded; Java's `int` counter would wrap after 2^31 objects of one class. Names are a datatype, and `Render` gives their text. Names of distinct classes never share a text because Java class names contain no '-' (`RenderIsInjective`).
- `StatusDumper.Dumped`: `hashCode` and `getClass().getName()` are functions of the object, as the Java contract requires for the lifetime of the dump.
- `PciHostBridge.Identify`: the header-type store could only fault outside the array, which cannot happen at these constant offsets; the fault paths of the five stores are therefore not separately modelled.
- `PciHostBridge.Deassign`: the bridge's `autoAssignDeviceFunctionNumber` returns false and is kept as the constant `AUTO_ASSIGN`; assignment by the bus is not modelled.
- `TimerQueue.OfferAllIsStable` states only the grouping order; sortedness of the same sequence of offers is `TimerQueue.OfferAllKeepsSorted`.
- `CodeBlockManager.GetCodeBlockAt`: a `CodeBlockReplacementException` is passed to the caller as a `ReplacementThrown` value, since what the caller does with it lies in the processor.
- `IORegion`, `IRQBouncer`, `VirtualKeyboard`, `KeyboardHook`, the output channels and `PCStartStopTest` are user-interface or plumbing code with no logic of the core.
