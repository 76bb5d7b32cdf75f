/** The 8042 keyboard controller (`Keyboard`): its mode and status
    registers, the interrupt levels it drives, the controller commands
    written to port 0x64, its reset, and the PS/2 mouse packet encoder. The
    interrupt controller, the CPU and the A20 gate are outside: the model
    records the last level driven on IRQ 1 and IRQ 12 and returns the A20
    and CPU-reset requests a command makes. */
module Keyboard {
  import opened Jvm
  import Q = KeyboardQueue

  /* Status register bits. */
  const KBD_STAT_OBF: bv8 := 0x01
  const KBD_STAT_SELFTEST: bv8 := 0x04
  const KBD_STAT_CMD: bv8 := 0x08
  const KBD_STAT_UNLOCKED: bv8 := 0x10
  const KBD_STAT_MOUSE_OBF: bv8 := 0x20

  /* Controller mode register bits. */
  const KBD_MODE_KBD_INT: bv32 := 0x01
  const KBD_MODE_MOUSE_INT: bv32 := 0x02
  const KBD_MODE_DISABLE_KBD: bv32 := 0x10
  const KBD_MODE_DISABLE_MOUSE: bv32 := 0x20

  /** Mouse status bit selecting 2:1 scaling. */
  const MOUSE_STATUS_SCALE21: bv32 := 0x10

  /* Controller commands. */
  const KBD_CCMD_READ_MODE: bv8 := 0x20
  const KBD_CCMD_WRITE_MODE: bv8 := 0x60
  const KBD_CCMD_MOUSE_DISABLE: bv8 := 0xA7
  const KBD_CCMD_MOUSE_ENABLE: bv8 := 0xA8
  const KBD_CCMD_TEST_MOUSE: bv8 := 0xA9
  const KBD_CCMD_SELF_TEST: bv8 := 0xAA
  const KBD_CCMD_KBD_TEST: bv8 := 0xAB
  const KBD_CCMD_KBD_DISABLE: bv8 := 0xAD
  const KBD_CCMD_KBD_ENABLE: bv8 := 0xAE
  const KBD_CCMD_READ_INPORT: bv8 := 0xC0
  const KBD_CCMD_READ_OUTPORT: bv8 := 0xD0
  const KBD_CCMD_WRITE_OUTPORT: bv8 := 0xD1
  const KBD_CCMD_WRITE_OBUF: bv8 := 0xD2
  const KBD_CCMD_WRITE_AUX_OBUF: bv8 := 0xD3
  const KBD_CCMD_WRITE_MOUSE: bv8 := 0xD4
  const KBD_CCMD_DISABLE_A20: bv8 := 0xDD
  const KBD_CCMD_ENABLE_A20: bv8 := 0xDF
  const KBD_CCMD_RESET: bv8 := 0xFE

  /** Which collaborators `acceptComponent` has bound: the interrupt
      controller, the I/O port handler (the ports are registered), the
      processor, the physical and linear address spaces, and the clock. A
      Java `null` reference is an unbound flag. */
  datatype Bindings = Bindings(
    irqDevice: bool,
    ioPorts: bool,
    cpu: bool,
    physical: bool,
    linear: bool,
    clock: bool)

  const Unbound: Bindings := Bindings(false, false, false, false, false, false)

  /** The controller's fields that the modelled operations read or write.
      `mode` and `mouseStatus` are Java `int` bit sets; `irq1Level` and
      `irq12Level` are the levels last driven on the two interrupt lines. */
  datatype Controller = Controller(
    bound: Bindings,
    queue: Q.Queue,
    mode: bv32,
    status: bv8,
    commandWrite: bv8,
    irq1Level: int,
    irq12Level: int,
    keyboardWriteCommand: int,
    keyboardScanEnabled: bool,
    mouseWriteCommand: int,
    mouseStatus: bv32,
    mouseResolution: int,
    mouseSampleRate: int,
    mouseWrap: bool,
    mouseDetectState: int,
    mouseDx: int,
    mouseDy: int,
    mouseDz: int,
    mouseButtons: int,
    nextMouseStreamSend: int,
    lastMouseButtons: int,
    keyboardTimeBound: int)

  predicate Valid(k: Controller) {
    && Q.Valid(k.queue)
    && IsInt32(k.mouseDx) && IsInt32(k.mouseDy) && IsInt32(k.mouseDz) && IsInt32(k.mouseButtons)
  }

  /** An operation's outcome: the controller as the operation left it and,
      when it called into a collaborator that is not bound, the
      `NullPointerException` that cut it short. Whatever the operation did
      before the call stays done. */
  datatype Step = Step(k: Controller, fault: Option<Exc>)

  /** `initialised`: every collaborator is bound. */
  predicate Initialised(k: Controller) {
    k.bound == Bindings(true, true, true, true, true, true)
  }

  /** The kinds of component `acceptComponent` looks for; any other
      component is ignored. Each component has exactly one kind here, while
      the Java tests each `instanceof` separately, so one object
      implementing several of the interfaces could bind several
      collaborators in a single call. */
  datatype Component =
    | InterruptController
    | IoPortHandler
    | Processor
    | PhysicalAddressSpace
    | LinearAddressSpace
    | Clock
    | OtherComponent

  /** `acceptComponent`: binds an initialised interrupt controller, I/O port
      handler (registering the ports), processor or clock, and an address
      space whether initialised or not. Binding the clock also starts the
      mouse stream: the next send is `now` and the last buttons 0. */
  function AcceptComponent(k: Controller, c: Component, initialised: bool, now: int): (r: Controller)
    requires Valid(k)
    ensures Valid(r)
    ensures r.bound.irqDevice <==> k.bound.irqDevice || (c == InterruptController && initialised)
    ensures r.bound.ioPorts <==> k.bound.ioPorts || (c == IoPortHandler && initialised)
    ensures r.bound.cpu <==> k.bound.cpu || (c == Processor && initialised)
    ensures r.bound.physical <==> k.bound.physical || c == PhysicalAddressSpace
    ensures r.bound.linear <==> k.bound.linear || c == LinearAddressSpace
    ensures r.bound.clock <==> k.bound.clock || (c == Clock && initialised)
    ensures c == Clock && initialised ==>
      r == k.(bound := r.bound, nextMouseStreamSend := now, lastMouseButtons := 0)
    ensures !(c == Clock && initialised) ==> r == k.(bound := r.bound)
  {
    var b := k.bound;
    match c
    case InterruptController => if initialised then k.(bound := b.(irqDevice := true)) else k
    case IoPortHandler => if initialised then k.(bound := b.(ioPorts := true)) else k
    case Processor => if initialised then k.(bound := b.(cpu := true)) else k
    case PhysicalAddressSpace => k.(bound := b.(physical := true))
    case LinearAddressSpace => k.(bound := b.(linear := true))
    case Clock =>
      if initialised then k.(bound := b.(clock := true), nextMouseStreamSend := now, lastMouseButtons := 0)
      else k
    case OtherComponent => k
  }

  /** Offering the controller each of the six collaborators, initialised,
      leaves it initialised, whatever it had bound before. */
  lemma AcceptAllInitialises(k: Controller, now: int)
    requires Valid(k)
    ensures var k1 := AcceptComponent(k, InterruptController, true, now);
      var k2 := AcceptComponent(k1, IoPortHandler, true, now);
      var k3 := AcceptComponent(k2, Processor, true, now);
      var k4 := AcceptComponent(k3, PhysicalAddressSpace, true, now);
      var k5 := AcceptComponent(k4, LinearAddressSpace, true, now);
      Initialised(AcceptComponent(k5, Clock, true, now))
  {
  }

  /** `reset`: every collaborator unbound (the ports unregistered), mode
      `KBD_INT | MOUSE_INT`, status `CMD | UNLOCKED`, an empty queue, and
      every keyboard and mouse field back to zero. The event time bound is
      not touched. */
  function Reset(k: Controller): (r: Controller)
    requires Valid(k)
    ensures Valid(r)
    ensures r.bound == Unbound && !Initialised(r)
    ensures r.mode == KBD_MODE_KBD_INT | KBD_MODE_MOUSE_INT && r.mode == 3
    ensures r.status == KBD_STAT_CMD | KBD_STAT_UNLOCKED && r.status == 0x18
    ensures Q.Contents(r.queue) == []
    ensures r.commandWrite == 0 && r.keyboardWriteCommand == 0 && r.mouseWriteCommand == 0
    ensures !r.keyboardScanEnabled && !r.mouseWrap
    ensures r.mouseStatus == 0 && r.mouseResolution == 0 && r.mouseSampleRate == 0 && r.mouseDetectState == 0
    ensures r.mouseDx == 0 && r.mouseDy == 0 && r.mouseDz == 0 && r.mouseButtons == 0
    ensures r.nextMouseStreamSend == -1 && r.lastMouseButtons == 0
    ensures r.keyboardTimeBound == k.keyboardTimeBound
  {
    k.(bound := Unbound,
       mode := KBD_MODE_KBD_INT | KBD_MODE_MOUSE_INT,
       status := KBD_STAT_CMD | KBD_STAT_UNLOCKED,
       queue := Q.Reset(k.queue),
       commandWrite := 0, keyboardWriteCommand := 0, keyboardScanEnabled := false,
       mouseWriteCommand := 0, mouseStatus := 0, mouseResolution := 0, mouseSampleRate := 0,
       mouseWrap := false, mouseDetectState := 0, mouseDx := 0, mouseDy := 0, mouseDz := 0,
       mouseButtons := 0, nextMouseStreamSend := -1, lastMouseButtons := 0)
  }

  /** The status byte with the two output-buffer-full bits recomputed:
      OBF for any pending byte, MOUSE_OBF for a pending mouse byte, every
      other bit kept. */
  function BufferStatus(status: bv8, pending: bool, mouseByte: bool): (s: bv8)
    requires mouseByte ==> pending
    ensures (s & KBD_STAT_OBF != 0) <==> pending
    ensures (s & KBD_STAT_MOUSE_OBF != 0) <==> mouseByte
    ensures s & 0xde == status & 0xde
  {
    var cleared := status & 0xde;
    if !pending then cleared
    else if mouseByte then cleared | 0x21
    else cleared | 0x01
  }

  /** `updateIRQ`: recomputes the two output-buffer-full status bits from
      the queue and drives IRQ 12 for a pending mouse byte (if mouse
      interrupts are on) or IRQ 1 for a pending keyboard byte (if keyboard
      interrupts are on and the keyboard is enabled); the other line is
      lowered. With no interrupt controller bound the status is still
      recomputed, and then driving the lines throws. */
  function UpdateIRQ(k: Controller): (r: Step)
    requires Valid(k)
    ensures Valid(r.k)
    ensures r.fault.Some? <==> !k.bound.irqDevice
    ensures r.fault.Some? ==> r.fault == Some(NullPointer)
    ensures r.k == k.(status := r.k.status, irq1Level := r.k.irq1Level, irq12Level := r.k.irq12Level)
    ensures var pending := k.queue.length != 0;
      r.k.status == BufferStatus(k.status, pending, pending && Q.GetAux(k.queue) != 0)
    ensures r.fault.Some? ==> r.k.irq1Level == k.irq1Level && r.k.irq12Level == k.irq12Level
    ensures r.fault.None? ==> LinesDriven(k, r.k)
  {
    var pending := k.queue.length != 0;
    var mouseByte := pending && Q.GetAux(k.queue) != 0;
    var status := BufferStatus(k.status, pending, mouseByte);
    if !k.bound.irqDevice then
      Step(k.(status := status), Some(NullPointer))
    else if mouseByte then
      Step(k.(status := status, irq1Level := 0, irq12Level := if k.mode & KBD_MODE_MOUSE_INT != 0 then 1 else 0), None)
    else if pending then
      Step(k.(status := status, irq12Level := 0,
              irq1Level := if k.mode & KBD_MODE_KBD_INT != 0 && k.mode & KBD_MODE_DISABLE_KBD == 0 then 1 else 0),
           None)
    else
      Step(k.(status := status, irq1Level := 0, irq12Level := 0), None)
  }

  /** The interrupt lines `updateIRQ` drives for the queue and mode of `k`:
      IRQ 12 high iff a mouse byte is pending with mouse interrupts on,
      IRQ 1 high iff a keyboard byte is pending with keyboard interrupts on
      and the keyboard enabled, never both, and each line 0 or 1. */
  predicate LinesDriven(k: Controller, r: Controller)
    requires Q.Valid(k.queue)
  {
    var pending := k.queue.length != 0;
    var mouseByte := pending && Q.GetAux(k.queue) != 0;
    && (r.irq12Level == 1 <==> mouseByte && k.mode & KBD_MODE_MOUSE_INT != 0)
    && (r.irq1Level == 1 <==>
          pending && !mouseByte && k.mode & KBD_MODE_KBD_INT != 0 && k.mode & KBD_MODE_DISABLE_KBD == 0)
    && (r.irq1Level == 0 || r.irq12Level == 0)
    && 0 <= r.irq1Level <= 1 && 0 <= r.irq12Level <= 1
  }

  /** `queue.writeData(data, aux)` as the controller sees it: the queue's
      own write, followed by `updateIRQ` unless the byte was dropped. The
      byte is queued even when `updateIRQ` then throws. */
  function Push(k: Controller, data: bv8, aux: bv8): (r: Step)
    requires Valid(k)
    ensures Valid(r.k)
    ensures k.queue.length < Q.KBD_QUEUE_SIZE ==>
      && Q.Contents(r.k.queue) == Q.Contents(k.queue) + [Q.Entry(data, aux)]
      && (r.fault.Some? <==> !k.bound.irqDevice)
      && r.k.status & KBD_STAT_OBF != 0 && r.k.status & 0xde == k.status & 0xde
    ensures k.queue.length >= Q.KBD_QUEUE_SIZE ==> r == Step(k, None)
    ensures r.fault.Some? ==> r.fault == Some(NullPointer)
    ensures r.k.bound == k.bound && r.k.mode == k.mode && r.k.commandWrite == k.commandWrite
    ensures r.k.mouseDx == k.mouseDx && r.k.mouseDy == k.mouseDy && r.k.mouseDz == k.mouseDz
    ensures r.k.mouseStatus == k.mouseStatus && r.k.mouseButtons == k.mouseButtons
  {
    var (q, stored) := Q.WriteData(k.queue, data, aux);
    if stored then UpdateIRQ(k.(queue := q)) else Step(k, None)
  }

  /** `readData` on port 0x60: the queue's read, then `updateIRQ`. Taking
      a byte off the queue first lowers its interrupt line, which throws
      when no interrupt controller is bound: the byte is then lost and
      `updateIRQ` is not reached. The byte returned is the port's value
      only when there is no fault. */
  function ReadData(k: Controller): (r: (Step, bv8))
    requires Valid(k)
    ensures Valid(r.0.k)
    ensures r.0.fault.Some? <==> !k.bound.irqDevice
    ensures r.0.fault.Some? ==> r.0.fault == Some(NullPointer)
    ensures r.0.fault.None? ==> r.1 == Q.ReadData(k.queue).value
    ensures k.queue.length > 0 ==> Q.Contents(r.0.k.queue) == Q.Contents(k.queue)[1..]
    ensures k.queue.length == 0 ==> r.0.k.queue == k.queue
  {
    var read := Q.ReadData(k.queue);
    if read.lowered.Some? && !k.bound.irqDevice then
      (Step(k.(queue := read.queue), Some(NullPointer)), read.value)
    else
      (UpdateIRQ(k.(queue := read.queue)), read.value)
  }

  /** The requests a command makes outside the controller. */
  datatype Effects = Effects(a20: Option<bool>, cpuReset: bool)

  const NoEffects: Effects := Effects(None, false)

  /** The output-port byte `KBD_CCMD_READ_OUTPORT` queues: bit 0 set, bit 1
      the A20 state, bits 4 and 5 copies of the two buffer-full flags. */
  function OutputPort(a20: bool, status: bv8): (b: bv8)
    ensures b & 0x01 == 0x01
    ensures (b & 0x02 != 0) <==> a20
    ensures (b & 0x10 != 0) <==> status & KBD_STAT_OBF != 0
    ensures (b & 0x20 != 0) <==> status & KBD_STAT_MOUSE_OBF != 0
    ensures b & 0xcc == 0
  {
    var b: bv8 := 0x01 | (if a20 then 0x02 else 0x00);
    var b := if status & KBD_STAT_OBF != 0 then b | 0x10 else b;
    if status & KBD_STAT_MOUSE_OBF != 0 then b | 0x20 else b
  }

  /** The commands that make the next data byte an argument. */
  predicate TakesArgument(cmd: bv8) {
    cmd == KBD_CCMD_WRITE_MODE || cmd == KBD_CCMD_WRITE_OBUF || cmd == KBD_CCMD_WRITE_AUX_OBUF
    || cmd == KBD_CCMD_WRITE_MOUSE || cmd == KBD_CCMD_WRITE_OUTPORT
  }

  /** The commands that answer with a byte in the queue. */
  predicate Answers(cmd: bv8) {
    cmd == KBD_CCMD_READ_MODE || cmd == KBD_CCMD_TEST_MOUSE || cmd == KBD_CCMD_SELF_TEST
    || cmd == KBD_CCMD_KBD_TEST || cmd == KBD_CCMD_READ_INPORT || cmd == KBD_CCMD_READ_OUTPORT
  }

  /** The commands that call the physical address space's A20 gate. */
  predicate UsesGate(cmd: bv8) {
    cmd == KBD_CCMD_READ_OUTPORT || cmd == KBD_CCMD_ENABLE_A20 || cmd == KBD_CCMD_DISABLE_A20
  }

  /** `writeCommand`: a byte written to port 0x64. `a20` is the gate's
      current state, read by `KBD_CCMD_READ_OUTPORT`. A command that calls
      an unbound gate or processor throws before changing anything, and
      then asks nothing of either. */
  function WriteCommand(k: Controller, cmd: bv8, a20: bool): (r: (Step, Effects))
    requires Valid(k)
    ensures Valid(r.0.k)
    ensures r.0.fault.Some? ==> r.0.fault == Some(NullPointer)
    ensures r.0.k.bound == k.bound
    ensures r.1.a20.Some? <==> (cmd == KBD_CCMD_ENABLE_A20 || cmd == KBD_CCMD_DISABLE_A20) && k.bound.physical
    ensures r.1.a20.Some? ==> r.1.a20.value == (cmd == KBD_CCMD_ENABLE_A20)
    ensures r.1.cpuReset <==> cmd == KBD_CCMD_RESET && k.bound.cpu
    ensures UsesGate(cmd) && !k.bound.physical ==> r.0 == Step(k, Some(NullPointer))
    ensures cmd == KBD_CCMD_RESET && !k.bound.cpu ==> r.0 == Step(k, Some(NullPointer))
    ensures k.bound.irqDevice && k.bound.cpu && k.bound.physical ==> r.0.fault.None?
  {
    if UsesGate(cmd) && !k.bound.physical then (Step(k, Some(NullPointer)), NoEffects)
    else if cmd == KBD_CCMD_RESET && !k.bound.cpu then (Step(k, Some(NullPointer)), NoEffects)
    else
      var state :=
        if TakesArgument(cmd) then Step(k.(commandWrite := cmd), None)
        else if Answers(cmd) then AnswerCommand(k, cmd, a20)
        else InterfaceCommand(k, cmd);
      (state, CommandEffects(cmd))
  }

  /** What a command asks of the A20 gate and the CPU. */
  function CommandEffects(cmd: bv8): Effects {
    if cmd == KBD_CCMD_ENABLE_A20 then Effects(Some(true), false)
    else if cmd == KBD_CCMD_DISABLE_A20 then Effects(Some(false), false)
    else if cmd == KBD_CCMD_RESET then Effects(None, true)
    else NoEffects
  }

  /** The answering commands: queue the reply; the self test first sets
      the self-test status bit. */
  function AnswerCommand(k: Controller, cmd: bv8, a20: bool): (r: Step)
    requires Valid(k) && Answers(cmd)
    ensures Valid(r.k)
    ensures r.k.bound == k.bound
    ensures r.fault.Some? ==> r.fault == Some(NullPointer) && !k.bound.irqDevice
  {
    var k' := if cmd == KBD_CCMD_SELF_TEST then k.(status := k.status | KBD_STAT_SELFTEST) else k;
    Push(k', Reply(k, cmd, a20), 0)
  }

  /** The mode register after an interface enable or disable command
      (bit 5 for the mouse, bit 4 for the keyboard); other commands keep it. */
  function InterfaceMode(mode: bv32, cmd: bv8): bv32 {
    (mode & !InterfaceBit(cmd)) | (if IsDisable(cmd) then InterfaceBit(cmd) else 0)
  }

  /** The mode bit an interface command is about; none for other commands. */
  function InterfaceBit(cmd: bv8): bv32 {
    if cmd == KBD_CCMD_MOUSE_DISABLE || cmd == KBD_CCMD_MOUSE_ENABLE then KBD_MODE_DISABLE_MOUSE
    else if cmd == KBD_CCMD_KBD_DISABLE || cmd == KBD_CCMD_KBD_ENABLE then KBD_MODE_DISABLE_KBD
    else 0
  }

  predicate IsDisable(cmd: bv8) {
    cmd == KBD_CCMD_MOUSE_DISABLE || cmd == KBD_CCMD_KBD_DISABLE
  }

  /** The interface enable and disable commands (the keyboard ones follow
      with `updateIRQ`); every other command, 0xFF among them, leaves the
      controller alone. */
  function InterfaceCommand(k: Controller, cmd: bv8): (r: Step)
    requires Valid(k)
    ensures Valid(r.k)
    ensures r.k.bound == k.bound
    ensures r.fault.Some? ==> r.fault == Some(NullPointer) && !k.bound.irqDevice
  {
    var k' := k.(mode := InterfaceMode(k.mode, cmd));
    if cmd == KBD_CCMD_KBD_DISABLE || cmd == KBD_CCMD_KBD_ENABLE then UpdateIRQ(k') else Step(k', None)
  }

  /** The byte an answering command queues: the low byte of the mode
      register, 0x55 for a passed controller self test, the output port, or
      0x00 for the mouse and keyboard interface tests and the input port. */
  function Reply(k: Controller, cmd: bv8, a20: bool): bv8
    requires Answers(cmd)
  {
    if cmd == KBD_CCMD_READ_MODE then (k.mode & 0xff) as bv8
    else if cmd == KBD_CCMD_SELF_TEST then 0x55
    else if cmd == KBD_CCMD_READ_OUTPORT then OutputPort(a20, k.status)
    else 0x00
  }

  /** A command that takes an argument only latches itself: the next byte
      written to port 0x60 is its argument. */
  lemma CommandLatchesArgument(k: Controller, cmd: bv8, a20: bool)
    requires Valid(k) && TakesArgument(cmd)
    ensures WriteCommand(k, cmd, a20) == (Step(k.(commandWrite := cmd), None), NoEffects)
  {
  }

  /** An answering command appends its reply to the queue as a keyboard
      byte (dropped when the queue is full) and throws afterwards exactly
      when no interrupt controller is bound; the self test also sets the
      self-test status bit. Reading the output port needs the gate bound. */
  lemma CommandQueuesReply(k: Controller, cmd: bv8, a20: bool)
    requires Valid(k) && Answers(cmd) && k.queue.length < Q.KBD_QUEUE_SIZE
    requires cmd == KBD_CCMD_READ_OUTPORT ==> k.bound.physical
    ensures var r := WriteCommand(k, cmd, a20);
      && Q.Contents(r.0.k.queue) == Q.Contents(k.queue) + [Q.Entry(Reply(k, cmd, a20), 0)]
      && r.0.k.mode == k.mode && r.0.k.commandWrite == k.commandWrite
      && (cmd == KBD_CCMD_SELF_TEST ==> r.0.k.status & KBD_STAT_SELFTEST != 0)
      && r.0.k.status & KBD_STAT_OBF != 0
      && (r.0.fault.Some? <==> !k.bound.irqDevice)
      && r.1 == NoEffects
  {
    var k' := if cmd == KBD_CCMD_SELF_TEST then k.(status := k.status | KBD_STAT_SELFTEST) else k;
    assert WriteCommand(k, cmd, a20).0 == Push(k', Reply(k, cmd, a20), 0);
    assert cmd == KBD_CCMD_SELF_TEST ==> k'.status & KBD_STAT_SELFTEST != 0;
  }

  /** The interface commands change only their own disable bit of the mode
      register: the disable commands set it and the enable commands clear it. */
  lemma InterfaceModeBits(mode: bv32, cmd: bv8)
    ensures InterfaceMode(mode, cmd) & !0x30 == mode & !0x30
    ensures cmd == KBD_CCMD_MOUSE_DISABLE ==> InterfaceMode(mode, cmd) & 0x30 == (mode & 0x10) | 0x20
    ensures cmd == KBD_CCMD_MOUSE_ENABLE ==> InterfaceMode(mode, cmd) & 0x30 == mode & 0x10
    ensures cmd == KBD_CCMD_KBD_DISABLE ==> InterfaceMode(mode, cmd) & 0x30 == (mode & 0x20) | 0x10
    ensures cmd == KBD_CCMD_KBD_ENABLE ==> InterfaceMode(mode, cmd) & 0x30 == mode & 0x20
  {
    var bit := InterfaceBit(cmd);
    assert bit == 0 || bit == 0x10 || bit == 0x20;
    assert IsDisable(cmd) ==> bit != 0;
  }

  /** A mouse interface command changes the mode register and nothing else;
      a keyboard interface command also recomputes the interrupt outputs,
      and with the keyboard disabled and an interrupt controller bound
      IRQ 1 is low. */
  lemma InterfaceCommands(k: Controller, cmd: bv8, a20: bool)
    requires Valid(k)
    requires cmd in {KBD_CCMD_MOUSE_DISABLE, KBD_CCMD_MOUSE_ENABLE, KBD_CCMD_KBD_DISABLE, KBD_CCMD_KBD_ENABLE}
    ensures var r := WriteCommand(k, cmd, a20);
      && r.1 == NoEffects
      && (cmd == KBD_CCMD_MOUSE_DISABLE || cmd == KBD_CCMD_MOUSE_ENABLE ==>
            r.0 == Step(k.(mode := InterfaceMode(k.mode, cmd)), None))
      && (cmd == KBD_CCMD_KBD_DISABLE || cmd == KBD_CCMD_KBD_ENABLE ==>
            r.0 == UpdateIRQ(k.(mode := InterfaceMode(k.mode, cmd))))
      && (cmd == KBD_CCMD_KBD_DISABLE && k.bound.irqDevice ==> r.0.k.irq1Level == 0)
  {
    if cmd == KBD_CCMD_KBD_DISABLE {
      assert InterfaceMode(k.mode, cmd) & KBD_MODE_DISABLE_KBD != 0;
    }
  }

  /** Every other command leaves the controller as it was. */
  lemma OtherCommandsKeepState(k: Controller, cmd: bv8, a20: bool)
    requires Valid(k) && !TakesArgument(cmd) && !Answers(cmd)
    requires cmd != KBD_CCMD_MOUSE_DISABLE && cmd != KBD_CCMD_MOUSE_ENABLE
    requires cmd != KBD_CCMD_KBD_DISABLE && cmd != KBD_CCMD_KBD_ENABLE
    ensures WriteCommand(k, cmd, a20).0.k == k
  {
  }

  /** Disabling then re-enabling the mouse interface restores the mode
      register when the disable bit was clear to begin with. */
  lemma MouseDisableEnable(k: Controller, a20: bool)
    requires Valid(k) && k.mode & KBD_MODE_DISABLE_MOUSE == 0
    ensures var once := WriteCommand(k, KBD_CCMD_MOUSE_DISABLE, a20).0;
      once.fault.None? && WriteCommand(once.k, KBD_CCMD_MOUSE_ENABLE, a20).0 == Step(k, None)
  {
    var m := k.mode;
    assert (m | KBD_MODE_DISABLE_MOUSE) & !KBD_MODE_DISABLE_MOUSE == m;
  }

  /** After `reset` the controller has no collaborators until they are
      accepted again: a pending byte read from port 0x60, the A20 and reset
      commands, and any interrupt update all throw. */
  lemma ResetUnbinds(k: Controller, a20: bool)
    requires Valid(k)
    ensures var r := Reset(k);
      && UpdateIRQ(r).fault == Some(NullPointer)
      && WriteCommand(r, KBD_CCMD_ENABLE_A20, a20) == (Step(r, Some(NullPointer)), NoEffects)
      && WriteCommand(r, KBD_CCMD_RESET, a20) == (Step(r, Some(NullPointer)), NoEffects)
      && ReadData(r).0.fault == Some(NullPointer)
  {
  }

  /** `scale2`: the PS/2 2:1 scaling table for -5..5, doubling (with Java
      `int` wrap-around) elsewhere. */
  function Scale2(v: int): (r: int)
    requires IsInt32(v)
    ensures IsInt32(r)
    ensures -5 <= v <= 5 ==> -9 <= r <= 9 && (r < 0 <==> v < 0) && (v == 0 <==> r == 0)
    ensures (v < -5 || 5 < v) && -0x4000_0000 <= v < 0x4000_0000 ==> r == 2 * v
  {
    match v
    case -5 => -9
    case -4 => -6
    case -3 => -3
    case -2 => -1
    case -1 => -1
    case 0 => 0
    case 1 => 1
    case 2 => 1
    case 3 => 3
    case 4 => 6
    case 5 => 9
    case _ => Wrap32(2 * v)
  }

  /** Scaling is odd wherever doubling does not overflow. */
  lemma Scale2Odd(v: int)
    requires -0x4000_0000 < v < 0x4000_0000
    ensures Scale2(-v) == -Scale2(v)
  {
  }

  /** Scaling keeps the order of motions wherever doubling does not overflow. */
  lemma Scale2Monotone(v: int, w: int)
    requires -0x4000_0000 <= v <= w < 0x4000_0000
    ensures Scale2(v) <= Scale2(w)
  {
  }

  function Clamp(v: int, bound: int): (r: int)
    requires bound > 0
    ensures -bound <= r <= bound
    ensures -bound <= v <= bound ==> r == v
    ensures (r < 0 <==> v < 0) && (r == 0 <==> v == 0)
  {
    if v > bound then bound else if v < -bound then -bound else v
  }

  /** The motion one packet carries: the accumulated deltas, scaled 2:1
      for a streamed packet when scaling is on, then clamped to what the
      packet can encode (9-bit X and Y, 4-bit Z). */
  function PacketDeltas(k: Controller, polled: bool): (d: (int, int, int))
    requires Valid(k)
    ensures -255 <= d.0 <= 255 && -255 <= d.1 <= 255 && -7 <= d.2 <= 7
    ensures d.2 == Clamp(k.mouseDz, 7)
    ensures polled || k.mouseStatus & MOUSE_STATUS_SCALE21 == 0 ==>
      d.0 == Clamp(k.mouseDx, 255) && d.1 == Clamp(k.mouseDy, 255)
  {
    var scaled := !polled && k.mouseStatus & MOUSE_STATUS_SCALE21 != 0;
    var dx := if scaled then Scale2(k.mouseDx) else k.mouseDx;
    var dy := if scaled then Scale2(k.mouseDy) else k.mouseDy;
    (Clamp(dx, 255), Clamp(dy, 255), Clamp(k.mouseDz, 7))
  }

  /** The packet's first byte: always-one bit 3, the X and Y sign bits in
      bits 4 and 5, and the three button bits. */
  function PacketHeader(dx: int, dy: int, buttons: int): (b: bv8)
    ensures b & 0x08 == 0x08
    ensures (b & 0x10 != 0) <==> dx < 0
    ensures (b & 0x20 != 0) <==> dy < 0
    ensures b & 0x07 == Low8(buttons) & 0x07
    ensures b & 0xc0 == 0
  {
    var x: bv8 := if dx < 0 then 1 else 0;
    var y: bv8 := if dy < 0 then 1 else 0;
    0x08 | (x << 4) | (y << 5) | (Low8(buttons) & 0x07)
  }

  /** `mouseSendPacket`: queues the three-byte PS/2 packet as mouse bytes
      (the mouse type is plain PS/2, so no fourth byte) and subtracts the
      sent motion from the accumulators. Bytes that do not fit in the queue
      are dropped, but the motion counts as sent. A queued byte with no
      interrupt controller bound throws: the rest of the packet is not
      queued and the motion is not subtracted. */
  function MouseSendPacket(k: Controller, polled: bool): (r: Step)
    requires Valid(k)
    ensures Valid(r.k)
    ensures r.fault.None? ==> var (dx, dy, dz) := PacketDeltas(k, polled);
      && r.k.mouseDx == Wrap32(k.mouseDx - dx)
      && r.k.mouseDy == Wrap32(k.mouseDy - dy)
      && r.k.mouseDz == k.mouseDz - dz
    ensures r.fault.Some? ==>
      && r.fault == Some(NullPointer)
      && r.k.mouseDx == k.mouseDx && r.k.mouseDy == k.mouseDy && r.k.mouseDz == k.mouseDz
    ensures r.fault.Some? <==> !k.bound.irqDevice && k.queue.length < Q.KBD_QUEUE_SIZE
    ensures r.k.bound == k.bound && r.k.mode == k.mode
    ensures r.k.mouseStatus == k.mouseStatus && r.k.mouseButtons == k.mouseButtons
  {
    var (dx, dy, dz) := PacketDeltas(k, polled);
    var sent := PushPacket(k, [PacketHeader(dx, dy, k.mouseButtons), Low8(dx), Low8(dy)]);
    if sent.fault.Some? then sent
    else Step(sent.k.(mouseDx := Wrap32(k.mouseDx - dx), mouseDy := Wrap32(k.mouseDy - dy), mouseDz := k.mouseDz - dz), None)
  }

  /** Pushes the bytes of a packet in order, each as a mouse byte, stopping
      at the first fault. */
  function PushPacket(k: Controller, bytes: seq<bv8>): (r: Step)
    requires Valid(k)
    ensures Valid(r.k)
    ensures r.k.bound == k.bound && r.k.mode == k.mode
    ensures r.k.mouseStatus == k.mouseStatus && r.k.mouseButtons == k.mouseButtons
    ensures r.k.mouseDx == k.mouseDx && r.k.mouseDy == k.mouseDy && r.k.mouseDz == k.mouseDz
    ensures r.fault.Some? ==> r.fault == Some(NullPointer)
    ensures r.fault.Some? <==> !k.bound.irqDevice && bytes != [] && k.queue.length < Q.KBD_QUEUE_SIZE
    decreases |bytes|
  {
    if bytes == [] then Step(k, None)
    else
      var first := Push(k, bytes[0], 1);
      if first.fault.Some? then first else PushPacket(first.k, bytes[1..])
  }

  /** The mouse bytes of a packet, as queue entries. */
  function MouseEntries(bytes: seq<bv8>): (e: seq<Q.Entry>)
    ensures |e| == |bytes|
    ensures forall i :: 0 <= i < |e| ==> e[i] == Q.Entry(bytes[i], 1)
  {
    seq(|bytes|, i requires 0 <= i < |bytes| => Q.Entry(bytes[i], 1))
  }

  /** With an interrupt controller bound and room in the queue, a packet
      lands at its tail intact. */
  lemma {:induction false} PushPacketAppends(k: Controller, bytes: seq<bv8>)
    requires Valid(k) && k.bound.irqDevice && k.queue.length + |bytes| <= Q.KBD_QUEUE_SIZE
    ensures Q.Contents(PushPacket(k, bytes).k.queue) == Q.Contents(k.queue) + MouseEntries(bytes)
    decreases |bytes|
  {
    if bytes != [] {
      var k1 := Push(k, bytes[0], 1);
      PushPacketAppends(k1.k, bytes[1..]);
      assert MouseEntries(bytes) == [Q.Entry(bytes[0], 1)] + MouseEntries(bytes[1..]);
    }
  }

  /** The packet `mouseSendPacket` queues when there is room and an
      interrupt controller: header, X and Y bytes, all marked as mouse
      bytes. */
  lemma PacketQueued(k: Controller, polled: bool)
    requires Valid(k) && k.bound.irqDevice && k.queue.length + 3 <= Q.KBD_QUEUE_SIZE
    ensures var (dx, dy, dz) := PacketDeltas(k, polled);
      Q.Contents(MouseSendPacket(k, polled).k.queue) == Q.Contents(k.queue)
        + [Q.Entry(PacketHeader(dx, dy, k.mouseButtons), 1), Q.Entry(Low8(dx), 1), Q.Entry(Low8(dy), 1)]
  {
    var (dx, dy, dz) := PacketDeltas(k, polled);
    var bytes := [PacketHeader(dx, dy, k.mouseButtons), Low8(dx), Low8(dy)];
    PushPacketAppends(k, bytes);
    assert MouseEntries(bytes) == [Q.Entry(bytes[0], 1), Q.Entry(bytes[1], 1), Q.Entry(bytes[2], 1)];
  }

  /** With no interrupt controller bound and room in the queue, only the
      packet's header is queued before the fault. */
  lemma UnboundPacketStopsAtHeader(k: Controller, polled: bool)
    requires Valid(k) && !k.bound.irqDevice && k.queue.length < Q.KBD_QUEUE_SIZE
    ensures var (dx, dy, dz) := PacketDeltas(k, polled);
      Q.Contents(MouseSendPacket(k, polled).k.queue) == Q.Contents(k.queue)
        + [Q.Entry(PacketHeader(dx, dy, k.mouseButtons), 1)]
  {
  }

  /** The motion still to be reported. */
  function Pending(k: Controller): nat {
    Abs(k.mouseDx) + Abs(k.mouseDy) + Abs(k.mouseDz)
  }

  function Abs(v: int): nat {
    if v < 0 then -v else v
  }

  /** With 1:1 scaling (or for a polled packet) every packet reduces the
      pending motion until none is left, so repeated sending stops. */
  lemma UnscaledSendingConverges(k: Controller, polled: bool)
    requires Valid(k) && k.bound.irqDevice && Pending(k) > 0
    requires polled || k.mouseStatus & MOUSE_STATUS_SCALE21 == 0
    ensures Pending(MouseSendPacket(k, polled).k) < Pending(k)
  {
    var r := MouseSendPacket(k, polled).k;
    var (dx, dy, dz) := PacketDeltas(k, polled);
    assert Abs(r.mouseDx) == Abs(k.mouseDx) - Abs(dx);
    assert Abs(r.mouseDy) == Abs(k.mouseDy) - Abs(dy);
    assert Abs(r.mouseDz) == Abs(k.mouseDz) - Abs(dz);
  }

  /** With 2:1 scaling a streamed X motion of 6 is sent as 12, leaving -6,
      which is sent as -12, leaving 6 again: the accumulators cycle and the
      sending loop of `putMouseEvent` never sees them reach zero. */
  lemma ScaledSendingOscillates(k: Controller)
    requires Valid(k) && k.bound.irqDevice && k.mouseStatus & MOUSE_STATUS_SCALE21 != 0
    requires k.mouseDx == 6 && k.mouseDy == 0 && k.mouseDz == 0
    ensures MouseSendPacket(k, false).k.mouseDx == -6
    ensures MouseSendPacket(MouseSendPacket(k, false).k, false).k.mouseDx == 6
    ensures var k2 := MouseSendPacket(MouseSendPacket(k, false).k, false).k;
      k2.mouseDy == 0 && k2.mouseDz == 0 && Pending(k2) == Pending(k)
  {
    assert Scale2(6) == 12;
    assert Scale2(-6) == -12;
  }
}
