/** The PC speaker on I/O port 0x61 (`PCSpeaker`). The low two bits of the
    port are the speaker mode: bit 0 gates channel 2 of the interval timer
    and, together with bit 1, selects what drives the speaker line. Reads
    also report the timer's channel-2 output and a refresh bit that flips
    on every byte read. Each change of the line is emitted as two frames,
    the old level and the new one, at the same time stamp. The interval
    timer and the clock are uninterpreted: the timer's output and the clock
    time are parameters, and the gate settings are returned. */
module PcSpeaker {
  import opened Jvm
  import opened IoPort

  const PORT: int := 0x61

  /** The speaker's fields; `pitBound` and `clockBound` say whether the
      interval timer and the clock are bound. */
  datatype Speaker = Speaker(
    refreshClock: bv32,
    mode: bv32,
    pitInput: bool,
    lastState: bool,
    ioportRegistered: bool,
    pitBound: bool,
    clockBound: bool)

  /** Only the two mode bits are ever stored. */
  predicate Valid(s: Speaker) {
    s.mode & !3 == 0
  }

  /** One frame of the speaker's output channel: a level from a time on. */
  datatype Frame = Frame(time: int, level: bool)

  /** The constructor: speaker off (mode 0), line and timer input high, and
      an initial low frame at time 0 on the output channel. */
  function New(): (r: (Speaker, seq<Frame>))
    ensures Valid(r.0) && r.0.lastState && r.0.pitInput && r.0.mode == 0
    ensures !Initialised(r.0)
    ensures r.1 == [Frame(0, false)]
  {
    (Speaker(0, 0, true, true, false, false, false), [Frame(0, false)])
  }

  /** `initialised`. */
  predicate Initialised(s: Speaker) {
    s.ioportRegistered && s.pitBound && s.clockBound
  }

  /** `reset`: unbinds the timer and the clock and forgets the registration;
      the mode, the line and the refresh bit stay. */
  function Reset(s: Speaker): (r: Speaker)
    ensures !Initialised(r) && !r.pitBound && !r.clockBound && !r.ioportRegistered
    ensures r.mode == s.mode && r.lastState == s.lastState && r.refreshClock == s.refreshClock
  {
    s.(pitBound := false, ioportRegistered := false, clockBound := false)
  }

  /** `ioPortsRequested`. */
  function PortsRequested(): (ports: seq<int>)
    ensures forall p :: p in ports <==> p == PORT
  {
    [0x61]
  }

  /** The speaker line for a mode and timer input: clamped high while the
      speaker is off (bit 1 clear), forced low while it is on but not
      following the timer (bit 0 clear), and the timer's input otherwise. */
  function Line(mode: bv32, pitInput: bool): (line: bool)
    ensures mode & 2 == 0 ==> line
    ensures mode & 3 == 2 ==> !line
    ensures mode & 3 == 3 ==> line == pitInput
  {
    if mode & 2 == 0 then true
    else if mode & 1 == 0 then false
    else pitInput
  }

  /** What a port access or timer input change does outside the speaker:
      the channel-2 gate settings in order, and the frames emitted. */
  datatype Effects = Effects(gates: seq<bool>, frames: seq<Frame>)

  const NONE: Effects := Effects([], [])

  function Then(a: Effects, b: Effects): Effects {
    Effects(a.gates + b.gates, a.frames + b.frames)
  }

  /** A speaker state after an operation, what it did, and the null
      reference it ran into, if any. */
  datatype Step = Step(speaker: Speaker, effects: Effects, fault: Option<Exc>)

  /** `updateSpeaker`: recomputes the line, emits the old and the new level
      at the clock's time when it changed, and records it. The clock is read
      before the comparison, so a missing clock faults with nothing
      recorded. */
  function UpdateSpeaker(s: Speaker, time: int): (r: Step)
    ensures r.effects.gates == []
    ensures !s.clockBound ==> r == Step(s, NONE, Some(NullPointer))
    ensures s.clockBound ==> r.fault.None? && r.speaker == s.(lastState := Line(s.mode, s.pitInput))
    ensures s.clockBound && Line(s.mode, s.pitInput) != s.lastState ==>
      r.effects.frames == [Frame(time, s.lastState), Frame(time, r.speaker.lastState)]
    ensures s.clockBound && Line(s.mode, s.pitInput) == s.lastState ==> r.effects.frames == []
  {
    if !s.clockBound then Step(s, NONE, Some(NullPointer))
    else
      var line := Line(s.mode, s.pitInput);
      var frames := if line != s.lastState then [Frame(time, s.lastState), Frame(time, line)] else [];
      Step(s.(lastState := line), Effects([], frames), None)
  }

  /** `ioPortWriteByte`: gates timer channel 2 with bit 0, stores the low
      two bits as the mode and updates the line. Without a timer it faults
      before changing anything. */
  function WriteByte(s: Speaker, data: bv32, time: int): (r: Step)
    requires Valid(s)
    ensures Valid(r.speaker)
    ensures !s.pitBound ==> r == Step(s, NONE, Some(NullPointer))
    ensures s.pitBound ==> r.speaker.mode == data & 3 && r.effects.gates == [data & 1 != 0]
    ensures s.pitBound && s.clockBound ==> r.fault.None? && r.speaker.lastState == Line(data, s.pitInput)
  {
    if !s.pitBound then Step(s, NONE, Some(NullPointer))
    else
      var s' := s.(mode := data & 3);
      var u := UpdateSpeaker(s', time);
      LineUsesModeBits(data, s.pitInput);
      Step(u.speaker, Then(Effects([data & 1 != 0], []), u.effects), u.fault)
  }

  lemma LineUsesModeBits(data: bv32, pitInput: bool)
    ensures Line(data & 3, pitInput) == Line(data, pitInput)
  {
    assert (data & 3) & 2 == data & 2 && (data & 3) & 1 == data & 1;
  }

  /** `ioPortWriteWord`: a byte write of the data, then one of the data
      shifted right by 8. */
  function WriteWord(s: Speaker, data: bv32, time: int): (r: Step)
    requires Valid(s)
    ensures Valid(r.speaker)
    ensures !s.pitBound ==> r == Step(s, NONE, Some(NullPointer))
    ensures s.pitBound && s.clockBound ==> r.fault.None? && r.speaker.mode == (data >> 8) & 3
    ensures s.pitBound && s.clockBound ==> r.speaker.lastState == Line(data >> 8, s.pitInput)
    ensures s.pitBound && s.clockBound ==> r.effects.gates == [data & 1 != 0, (data >> 8) & 1 != 0]
    ensures !s.clockBound ==> r.fault == Some(NullPointer) && r.speaker.lastState == s.lastState
  {
    var first := WriteByte(s, data, time);
    if first.fault.Some? then first
    else
      var second := WriteByte(first.speaker, data >> 8, time);
      Step(second.speaker, Then(first.effects, second.effects), second.fault)
  }

  /** `ioPortWriteLong`: a word write of the data, then one of the data
      shifted right by 16. */
  function WriteLong(s: Speaker, data: bv32, time: int): (r: Step)
    requires Valid(s)
    ensures Valid(r.speaker)
    ensures !s.pitBound ==> r == Step(s, NONE, Some(NullPointer))
    ensures s.pitBound && s.clockBound ==> r.fault.None? && r.speaker.mode == (data >> 24) & 3
    ensures s.pitBound && s.clockBound ==> r.speaker.lastState == Line(data >> 24, s.pitInput)
    ensures s.pitBound && s.clockBound ==> |r.effects.gates| == 4 && r.effects.gates[3] == ((data >> 24) & 1 != 0)
    ensures !s.clockBound ==> r.fault == Some(NullPointer) && r.speaker.lastState == s.lastState
  {
    var first := WriteWord(s, data, time);
    if first.fault.Some? then first
    else
      var second := WriteWord(first.speaker, data >> 16, time);
      assert (data >> 16) >> 8 == data >> 24;
      Step(second.speaker, Then(first.effects, second.effects), second.fault)
  }

  /** `setPITInput`: records the timer's output and updates the line. */
  function SetPitInput(s: Speaker, input: bool, time: int): (r: Step)
    ensures !s.clockBound ==> r.speaker == s.(pitInput := input) && r.fault == Some(NullPointer)
    ensures s.clockBound ==> r.fault.None? && r.speaker.lastState == Line(s.mode, input)
    ensures r.effects.gates == [] && r.speaker.mode == s.mode
  {
    UpdateSpeaker(s.(pitInput := input), time)
  }

  /** A read's new state and value. */
  datatype Read = Read(speaker: Speaker, result: Result<bv32>)

  /** `ioPortReadByte`: flips the refresh bit, then reports the mode in
      bits 0-1, the refresh bit in bit 4 and the timer's channel-2 output
      `out` in bit 5. */
  function ReadByte(s: Speaker, out: bv32): (r: Read)
    ensures !s.pitBound ==> r == Read(s, Throw(NullPointer))
    ensures s.pitBound ==> r.speaker == s.(refreshClock := s.refreshClock ^ 1)
    ensures s.pitBound ==> r.result == Ok(s.mode | (out << 5) | (r.speaker.refreshClock << 4))
  {
    if !s.pitBound then Read(s, Throw(NullPointer))
    else
      var refresh := s.refreshClock ^ 1;
      Read(s.(refreshClock := refresh), Ok(s.mode | (out << 5) | (refresh << 4)))
  }

  /** The status byte a byte read reports for a given refresh bit: the
      mode in bits 0-1, the refresh bit in bit 4, the timer's output in
      bit 5, cut to one byte lane. */
  function Lane(s: Speaker, out: bv32, refresh: bv32): bv32 {
    0xff & (s.mode | (out << 5) | (refresh << 4))
  }

  /** `ioPortReadWord`: two byte reads, the first in the low byte. The
      refresh bit flips before each, so the low byte carries the flipped
      bit and the high byte the original one, which is where it ends. */
  function ReadWord(s: Speaker, out: bv32): (r: Read)
    ensures !s.pitBound ==> r == Read(s, Throw(NullPointer))
    ensures s.pitBound ==> r.speaker == s
    ensures s.pitBound ==>
      r.result == Ok(Lane(s, out, s.refreshClock ^ 1) | (Lane(s, out, s.refreshClock) << 8))
  {
    var first := ReadByte(s, out);
    if first.result.Throw? then first
    else
      var second := ReadByte(first.speaker, out);
      ToggleTwice(s.refreshClock);
      WordLanes(first.result.value, second.result.value);
      Read(second.speaker, Ok((0xff & first.result.value) | (0xff00 & (second.result.value << 8))))
  }

  lemma ToggleTwice(x: bv32)
    ensures (x ^ 1) ^ 1 == x
  {
  }

  lemma WordLanes(b1: bv32, b2: bv32)
    ensures (0xff & b1) | (0xff00 & (b2 << 8)) == (0xff & b1) | ((0xff & b2) << 8)
  {
  }

  /** `ioPortReadLong`: two word reads, the first in the low half. Each
      word read leaves the refresh bit where it was, so the two halves are
      equal: bytes 0 and 2 carry the flipped refresh bit, bytes 1 and 3 the
      original one. */
  function ReadLong(s: Speaker, out: bv32): (r: Read)
    ensures !s.pitBound ==> r == Read(s, Throw(NullPointer))
    ensures s.pitBound ==> r.speaker == s
    ensures s.pitBound ==>
      var odd := Lane(s, out, s.refreshClock ^ 1);
      var even := Lane(s, out, s.refreshClock);
      r.result == Ok(odd | (even << 8) | (odd << 16) | (even << 24))
  {
    var first := ReadWord(s, out);
    if first.result.Throw? then first
    else
      var second := ReadWord(first.speaker, out);
      LongLanes(Lane(s, out, s.refreshClock ^ 1), Lane(s, out, s.refreshClock));
      Read(second.speaker, Ok((0xffff & first.result.value) | (0xffff0000 & (second.result.value << 16))))
  }

  lemma LongLanes(odd: bv32, even: bv32)
    requires odd & !0xff == 0 && even & !0xff == 0
    ensures var w := odd | (even << 8);
      (0xffff & w) | (0xffff0000 & (w << 16)) == odd | (even << 8) | (odd << 16) | (even << 24)
  {
  }

  /** The mode reads back: after a byte write that found the timer, the
      low two bits of a byte read are those of the data written. */
  lemma WriteThenReadMode(s: Speaker, data: bv32, time: int, out: bv32)
    requires Valid(s) && s.pitBound
    ensures var w := WriteByte(s, data, time).speaker;
      ReadByte(w, out).result.Ok? && ReadByte(w, out).result.value & 3 == data & 3
  {
    var w := WriteByte(s, data, time).speaker;
    ModeInLowBits(w.mode, out, w.refreshClock ^ 1);
  }

  lemma ModeInLowBits(mode: bv32, out: bv32, refresh: bv32)
    ensures (mode | (out << 5) | (refresh << 4)) & 3 == mode & 3
  {
  }

  /** Consecutive byte reads differ in the refresh bit (bit 4), whatever
      the timer's output. */
  lemma RefreshToggles(s: Speaker, out: bv32, out': bv32)
    requires Valid(s) && s.pitBound
    ensures var first := ReadByte(s, out);
      var second := ReadByte(first.speaker, out');
      first.result.value & 0x10 != second.result.value & 0x10
  {
    var r1 := s.refreshClock ^ 1;
    var r2 := r1 ^ 1;
    RefreshBit(s.mode, out, r1);
    RefreshBit(s.mode, out', r2);
    assert r1 & 1 != r2 & 1;
  }

  lemma RefreshBit(mode: bv32, out: bv32, refresh: bv32)
    requires mode & !3 == 0
    ensures (mode | (out << 5) | (refresh << 4)) & 0x10 == (refresh & 1) << 4
  {
  }

  /** A word read is two byte reads: its two bytes carry opposite refresh
      bits (bits 4 and 12), and the refresh bit ends where it started. */
  lemma WordReadTogglesTwice(s: Speaker, out: bv32)
    requires Valid(s) && s.pitBound
    ensures var v := ReadWord(s, out).result.value;
      (v & 0x10 == 0) != (v & 0x1000 == 0)
  {
    var r1 := s.refreshClock ^ 1;
    var r2 := r1 ^ 1;
    var b1 := s.mode | (out << 5) | (r1 << 4);
    var b2 := s.mode | (out << 5) | (r2 << 4);
    RefreshBit(s.mode, out, r1);
    RefreshBit(s.mode, out, r2);
    assert r1 & 1 != r2 & 1;
    JoinBytes(b1, b2);
  }

  lemma JoinBytes(b1: bv32, b2: bv32)
    ensures ((0xff & b1) | (0xff00 & (b2 << 8))) & 0x10 == b1 & 0x10
    ensures ((0xff & b1) | (0xff00 & (b2 << 8))) & 0x1000 == (b2 & 0x10) << 8
  {
  }

  /** The line follows the timer exactly when both mode bits are set: then
      every change of the timer's input is emitted. */
  lemma FollowsTimer(s: Speaker, input: bool, time: int)
    requires s.clockBound && s.mode & 3 == 3
    ensures var r := SetPitInput(s, input, time);
      r.speaker.lastState == input
      && (r.effects.frames != [] <==> input != s.lastState)
  {
  }

  /** While the speaker is off, the timer's input never reaches the line and
      no frames are emitted once the line is high. */
  lemma OffIgnoresTimer(s: Speaker, input: bool, time: int)
    requires s.clockBound && s.mode & 2 == 0 && s.lastState
    ensures SetPitInput(s, input, time).effects.frames == []
    ensures SetPitInput(s, input, time).speaker.lastState
  {
  }
}
