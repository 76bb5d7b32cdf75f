/** The 8042 controller's output queue (`Keyboard.KeyboardQueue`): a ring
    of 256 slots, each holding a data byte and an aux byte (non-zero when
    the byte comes from the mouse), with a read position, a write position
    and a length. `Contents` is the abstract FIFO the ring stands for. */
module KeyboardQueue {
  import opened Jvm

  /** `KBD_QUEUE_SIZE`. */
  const KBD_QUEUE_SIZE: int := 256

  /** One queued byte and its origin (`aux` non-zero for the mouse). */
  datatype Entry = Entry(data: bv8, aux: bv8)

  datatype Queue = Queue(aux: seq<bv8>, data: seq<bv8>, readPosition: int, writePosition: int, length: int)

  /** The ring's invariant: full-size arrays, positions inside them, and the
      write position `length` slots after the read position. */
  predicate Valid(q: Queue) {
    && |q.aux| == KBD_QUEUE_SIZE && |q.data| == KBD_QUEUE_SIZE
    && 0 <= q.readPosition < KBD_QUEUE_SIZE
    && 0 <= q.length <= KBD_QUEUE_SIZE
    && q.writePosition == (q.readPosition + q.length) % KBD_QUEUE_SIZE
  }

  /** The slot holding the `i`-th oldest entry. */
  function Slot(q: Queue, i: int): (s: int)
    requires Valid(q) && 0 <= i
    ensures 0 <= s < KBD_QUEUE_SIZE
  {
    (q.readPosition + i) % KBD_QUEUE_SIZE
  }

  /** The queued entries, oldest first. */
  function Contents(q: Queue): (c: seq<Entry>)
    requires Valid(q)
    ensures |c| == q.length
  {
    seq(q.length, i requires 0 <= i < q.length => Entry(q.data[Slot(q, i)], q.aux[Slot(q, i)]))
  }

  /** The constructor: zeroed arrays, everything at position 0. */
  function New(): (q: Queue)
    ensures Valid(q) && Contents(q) == []
  {
    Queue(seq(KBD_QUEUE_SIZE, _ => 0), seq(KBD_QUEUE_SIZE, _ => 0), 0, 0, 0)
  }

  /** `reset`: empties the queue; the arrays keep their old bytes. */
  function Reset(q: Queue): (r: Queue)
    requires Valid(q)
    ensures Valid(r) && Contents(r) == []
    ensures r.readPosition == 0 && r.writePosition == 0
    ensures r.data == q.data && r.aux == q.aux
  {
    q.(readPosition := 0, writePosition := 0, length := 0)
  }

  /** `getAux`: the aux byte at the read position, which is the oldest
      entry's origin whenever the queue is not empty. */
  function GetAux(q: Queue): (a: bv8)
    requires Valid(q)
    ensures q.length > 0 ==> a == Contents(q)[0].aux
  {
    q.aux[q.readPosition]
  }

  /** What `readData` returns and which interrupt line it lowers, if any. */
  datatype Read = Read(queue: Queue, value: bv8, lowered: Option<int>)

  /** `readData`. On an empty queue: the data byte of the slot before the
      read position (slot 255 when that is 0), with nothing changed. Otherwise
      the oldest entry's data byte, dequeued; reading lowers IRQ 12 for a
      mouse byte and IRQ 1 for a keyboard byte. */
  function ReadData(q: Queue): (r: Read)
    requires Valid(q)
    ensures Valid(r.queue)
    ensures q.length == 0 ==>
      && r.queue == q && r.lowered.None?
      && r.value == q.data[(q.readPosition - 1) % KBD_QUEUE_SIZE]
    ensures q.length > 0 ==>
      && r.value == Contents(q)[0].data
      && Contents(r.queue) == Contents(q)[1..]
      && r.lowered == Some(if Contents(q)[0].aux != 0 then 12 else 1)
  {
    if q.length == 0 then
      var index := if q.readPosition - 1 < 0 then KBD_QUEUE_SIZE - 1 else q.readPosition - 1;
      Read(q, q.data[index], None)
    else
      var auxValue := q.aux[q.readPosition];
      var dataValue := q.data[q.readPosition];
      var next := if q.readPosition + 1 == KBD_QUEUE_SIZE then 0 else q.readPosition + 1;
      var r := q.(readPosition := next, length := q.length - 1);
      DequeueShifts(q, r);
      Read(r, dataValue, Some(if auxValue != 0 then 12 else 1))
  }

  lemma DequeueShifts(q: Queue, r: Queue)
    requires Valid(q) && q.length > 0
    requires r == q.(readPosition := (q.readPosition + 1) % KBD_QUEUE_SIZE, length := q.length - 1)
    ensures Valid(r) && Contents(r) == Contents(q)[1..]
  {
    forall i | 0 <= i < r.length
      ensures Contents(r)[i] == Contents(q)[i + 1]
    {
      assert Slot(r, i) == Slot(q, i + 1);
    }
  }

  /** `writeData`. A full queue drops the byte and returns at once, without
      the controller's `updateIRQ`; otherwise the entry is appended and
      `updateIRQ` follows (`notify`). */
  function WriteData(q: Queue, data: bv8, aux: bv8): (r: (Queue, bool))
    requires Valid(q)
    ensures Valid(r.0)
    ensures r.1 <==> q.length < KBD_QUEUE_SIZE
    ensures !r.1 ==> r.0 == q
    ensures r.1 ==> Contents(r.0) == Contents(q) + [Entry(data, aux)]
  {
    if q.length >= KBD_QUEUE_SIZE then (q, false)
    else
      var next := if q.writePosition + 1 == KBD_QUEUE_SIZE then 0 else q.writePosition + 1;
      var r := q.(aux := q.aux[q.writePosition := aux], data := q.data[q.writePosition := data],
                  writePosition := next, length := q.length + 1);
      EnqueueAppends(q, r, data, aux);
      (r, true)
  }

  lemma EnqueueAppends(q: Queue, r: Queue, data: bv8, aux: bv8)
    requires Valid(q) && q.length < KBD_QUEUE_SIZE
    requires r == q.(aux := q.aux[q.writePosition := aux], data := q.data[q.writePosition := data],
                     writePosition := (q.writePosition + 1) % KBD_QUEUE_SIZE, length := q.length + 1)
    ensures Valid(r) && Contents(r) == Contents(q) + [Entry(data, aux)]
  {
    forall i | 0 <= i < q.length
      ensures Contents(r)[i] == Contents(q)[i]
    {
      assert Slot(r, i) == Slot(q, i) != q.writePosition;
    }
    assert Slot(r, q.length) == q.writePosition;
  }

  /** Writing into a non-full queue and reading it dry gives the bytes back
      in the order they were written. */
  lemma FifoOrder(q: Queue, data: bv8, aux: bv8)
    requires Valid(q) && q.length < KBD_QUEUE_SIZE
    ensures var w := WriteData(q, data, aux).0;
      q.length == 0 ==> ReadData(w).value == data && Contents(ReadData(w).queue) == []
    ensures var w := WriteData(q, data, aux).0;
      q.length > 0 ==> ReadData(w).value == ReadData(q).value
  {
  }

  /** Reads every queued byte, oldest first: the loop a driver runs to drain
      the output buffer. */
  method Drain(q: Queue) returns (bytes: seq<bv8>, r: Queue)
    requires Valid(q)
    ensures Valid(r) && r.length == 0
    ensures |bytes| == q.length
    ensures forall i :: 0 <= i < |bytes| ==> bytes[i] == Contents(q)[i].data
  {
    bytes := [];
    r := q;
    while r.length > 0
      invariant Valid(r)
      invariant |bytes| + r.length == q.length
      invariant Contents(r) == Contents(q)[|bytes|..]
      invariant forall i :: 0 <= i < |bytes| ==> bytes[i] == Contents(q)[i].data
      decreases r.length
    {
      var step := ReadData(r);
      bytes := bytes + [step.value];
      r := step.queue;
    }
  }
}
