/**
  The transmit side of the AT-over-SPI link. Four actors share a ring buffer, a request queue and
  a one-shot flush timer:

  - the caller of atio_spi_output, one at a time because output is serialised by a mutex;
  - the SPI task, the only consumer of the queue and the only reader of the ring. It exchanges a
    frame with the master, notifies, and then handles the packet it received, for which it may have
    to wait until the reader of transparent transmission makes room;
  - the flush timer, whose handler queues a write request and waits while the queue is full;
  - the interrupt raised by the master, whose request is dropped when the queue is full.

  Every call on the ring, the queue or the timer is one atomic step and steps interleave freely.
 */
module SpiOutput {
  import opened Bytes

  /** Ring capacity, largest frame payload, queue length, and the size of the ring for transparent
      transmission, which like every ring keeps one byte free. */
  datatype Link = Link(capacity: nat, payload: nat, slots: nat, size: nat)

  ghost predicate Sane(link: Link) {
    link.capacity > 0 && link.payload > 0 && link.slots > 0 && link.size > 0
  }

  /** The sizes the driver uses; only transparent transmission has a ring of its own size. */
  function DriverLink(size: nat): Link {
    Link(32 * 1024 - 1, 2048 * 8 - 8, 16, size)
  }

  datatype Request = Read | Write

  /**
    The queue-or-timer step that ends both an output and a transfer: look for a queued request,
    measure the ring, and then either stop the timer and queue a request or start the timer.
   */
  datatype Phase = Peek | Measure | AskStop | Stop | Send | AskStart | Start

  /** `packet` is the length of a packet that is still to be stored, 0 if there is none. */
  datatype Task =
    | Receive
    | Got(request: Request)
    | Load(request: Request, count: nat)
    | Transfer(request: Request)
    | TaskNotify(request: Request, phase: Phase, packet: nat)
    | Handle(packet: nat)

  datatype Writer =
    | Idle
    | Fill(rest: seq<Byte>)
    | Put(rest: seq<Byte>, space: nat)
    | WriterNotify(phase: Phase)

  /** `frames` and `accepted` are history: the payloads sent, and every byte handed to an output.
      `held` counts the bytes that transparent transmission holds for its reader. */
  datatype State = State(
    ring: seq<Byte>,
    queue: seq<Request>,
    armed: bool,
    firing: bool,
    task: Task,
    writer: Writer,
    frames: seq<seq<Byte>>,
    accepted: seq<Byte>,
    held: nat)

  const START := State([], [], false, false, Receive, Idle, [], [], 0)

  datatype Event =
    | Output(bytes: seq<Byte>)
    | WriterStep
    | TaskStep
    | Exchange(packet: nat)
    | Expire
    | Fire
    | Interrupt
    | Take(count: nat)

  // ----- Steps -----

  /** A send waits while the queue is full; everything else in the notification goes on. */
  predicate PhaseEnabled(link: Link, s: State, p: Phase) {
    p == Send ==> |s.queue| < link.slots
  }

  /** The state after one phase, and the next phase, if any. */
  function PhaseStep(link: Link, s: State, p: Phase, request: Request): (State, seq<Phase>) {
    match p
    case Peek => (s, if s.queue == [] then [Measure] else [])
    case Measure => (s, if |s.ring| >= link.payload then [AskStop] else if s.ring != [] then [AskStart] else [])
    case AskStop => (s, if s.armed then [Stop] else [Send])
    case Stop => (s.(armed := false), [Send])
    case Send => (s.(queue := s.queue + [request]), [])
    case AskStart => (s, if s.armed then [] else [Start])
    case Start => (s.(armed := true), [])
  }

  predicate TaskEnabled(link: Link, s: State) {
    match s.task
    case Receive => s.queue != []
    case TaskNotify(_, p, _) => PhaseEnabled(link, s, p)
    case Load(_, n) => n <= |s.ring|
    case Transfer(_) => false
    case _ => true
  }

  function FrameSize(link: Link, available: nat): nat {
    if available > link.payload then link.payload else available
  }

  function TaskNext(link: Link, s: State): State
    requires TaskEnabled(link, s)
  {
    match s.task
    case Receive => s.(task := Got(s.queue[0]), queue := s.queue[1..])
    case Got(r) =>
      if s.ring != [] then s.(task := Load(r, FrameSize(link, |s.ring|)))
      else if r == Read then s.(task := Transfer(r))
      else s.(task := Receive)
    case Load(r, n) =>
      s.(task := Transfer(r), ring := s.ring[n..], frames := s.frames + [s.ring[..n]])
    case TaskNotify(r, p, packet) =>
      var (after, next) := PhaseStep(link, s, p, r);
      after.(task := if next != [] then TaskNotify(r, next[0], packet)
                     else if packet == 0 then Receive else Handle(packet))
    case Handle(packet) =>
      if s.held + packet < link.size then s.(held := s.held + packet, task := Receive) else s
  }

  predicate WriterEnabled(link: Link, s: State) {
    match s.writer
    case Idle => false
    case WriterNotify(p) => PhaseEnabled(link, s, p)
    case _ => true
  }

  /** Space for the rest of the output is filled; less than that is filled and polled for more. */
  function WriterNext(link: Link, s: State): State
    requires WriterEnabled(link, s)
  {
    match s.writer
    case Fill(rest) =>
      s.(writer := Put(rest, if |s.ring| <= link.capacity then link.capacity - |s.ring| else 0))
    case Put(rest, space) =>
      if space >= |rest| then s.(ring := s.ring + rest, writer := WriterNotify(Peek))
      else s.(ring := s.ring + rest[..space], writer := Fill(rest[space..]))
    case WriterNotify(p) =>
      var (after, next) := PhaseStep(link, s, p, Write);
      after.(writer := if next == [] then Idle else WriterNotify(next[0]))
  }

  /** No single output is longer than `limit`. The timer cannot expire while its handler runs. The
      master ends an exchange with a packet or without; one longer than the ring's size is refused. */
  predicate Enabled(link: Link, limit: nat, s: State, e: Event) {
    match e
    case Output(bytes) => s.writer == Idle && |bytes| <= limit
    case WriterStep => WriterEnabled(link, s)
    case TaskStep => TaskEnabled(link, s)
    case Exchange(packet) => s.task.Transfer? && packet <= link.payload && packet <= link.size
    case Expire => s.armed && !s.firing
    case Fire => s.firing && |s.queue| < link.slots
    case Interrupt => true
    case Take(n) => n <= s.held
  }

  function Next(link: Link, limit: nat, s: State, e: Event): State
    requires Enabled(link, limit, s, e)
  {
    match e
    case Output(bytes) => s.(writer := Fill(bytes), accepted := s.accepted + bytes)
    case WriterStep => WriterNext(link, s)
    case TaskStep => TaskNext(link, s)
    case Expire => s.(armed := false, firing := true)
    case Fire => s.(firing := false, queue := s.queue + [Write])
    case Interrupt => if |s.queue| < link.slots then s.(queue := s.queue + [Read]) else s
    case Exchange(packet) => s.(task := TaskNotify(s.task.request, Peek, packet))
    case Take(n) => s.(held := s.held - n)
  }

  /** `run` is a possible interleaving from `s` and ends in `t`. */
  predicate Runs(link: Link, limit: nat, s: State, run: seq<Event>, t: State)
    decreases |run|
  {
    if run == [] then s == t
    else Enabled(link, limit, s, run[0]) && Runs(link, limit, Next(link, limit, s, run[0]), run[1..], t)
  }

  ghost predicate Reachable(link: Link, limit: nat, s: State) {
    exists run :: Runs(link, limit, START, run, s)
  }

  // ----- What every run keeps -----

  function Unwritten(w: Writer): seq<Byte> {
    match w
    case Fill(rest) => rest
    case Put(rest, _) => rest
    case _ => []
  }

  /** Frames, ring and what is left of the current output are exactly the accepted bytes, in order. */
  ghost predicate Conserved(s: State) {
    Concat(s.frames) + s.ring + Unwritten(s.writer) == s.accepted
  }

  ghost predicate FramesFit(link: Link, s: State) {
    forall i :: 0 <= i < |s.frames| ==> 0 < |s.frames[i]| <= link.payload
  }

  /** The SPI task has yet to notify. */
  predicate TaskPending(t: Task) {
    t != Receive && !t.Handle?
  }

  /** The packet that the SPI task has received and not stored. */
  function InHand(t: Task): nat {
    match t
    case TaskNotify(_, _, packet) => packet
    case Handle(packet) => packet
    case _ => 0
  }

  /** The writer has yet to notify and nothing keeps it from getting there. */
  predicate WriterPending(link: Link, s: State) {
    || s.writer.WriterNotify?
    || ((s.writer.Fill? || s.writer.Put?) && |s.ring| + |Unwritten(s.writer)| <= link.capacity)
  }

  /** Bytes in the ring always have someone who will come back for them. */
  predicate Covered(link: Link, s: State) {
    || s.ring == []
    || s.queue != []
    || s.armed
    || s.firing
    || TaskPending(s.task)
    || WriterPending(link, s)
  }

  /** Measurements taken by one actor stay usable while the other moves. */
  predicate MeasuresHold(link: Link, s: State) {
    && |s.ring| <= link.capacity
    && |s.queue| <= link.slots
    && (s.writer.Put? ==> |s.ring| + s.writer.space <= link.capacity)
    && (s.task.Load? ==> 0 < s.task.count <= |s.ring| && s.task.count <= link.payload)
    && (s.task.TaskNotify? && s.task.phase != Peek && s.task.phase != Measure ==> s.ring != [])
    && s.held < link.size && InHand(s.task) <= link.size
  }

  predicate OutputFits(link: Link, s: State) {
    |Unwritten(s.writer)| <= link.capacity
  }

  /** What holds whatever the size of the outputs. */
  ghost predicate Invariant(link: Link, s: State) {
    MeasuresHold(link, s) && Conserved(s) && FramesFit(link, s)
  }

  lemma TaskKeepsMeasures(link: Link, s: State)
    requires Sane(link) && MeasuresHold(link, s) && TaskEnabled(link, s)
    ensures MeasuresHold(link, TaskNext(link, s))
  {
  }

  lemma WriterKeepsMeasures(link: Link, s: State)
    requires Sane(link) && MeasuresHold(link, s) && WriterEnabled(link, s)
    ensures MeasuresHold(link, WriterNext(link, s))
  {
  }

  lemma LoadConserves(link: Link, s: State)
    requires Invariant(link, s) && s.task.Load? && TaskEnabled(link, s)
    ensures Conserved(TaskNext(link, s)) && FramesFit(link, TaskNext(link, s))
  {
    hide Concat, PhaseStep;
    var n := s.task.count;
    ConcatAppend(s.frames, s.ring[..n]);
    assert Concat(s.frames) + s.ring[..n] + s.ring[n..] == Concat(s.frames) + s.ring;
  }

  lemma TaskConserves(link: Link, s: State)
    requires Invariant(link, s) && TaskEnabled(link, s)
    ensures Conserved(TaskNext(link, s)) && FramesFit(link, TaskNext(link, s))
  {
    hide Concat;
    var t := TaskNext(link, s);
    assert t.writer == s.writer && t.accepted == s.accepted;
    if s.task.Load? {
      LoadConserves(link, s);
    } else {
      assert t.frames == s.frames && t.ring == s.ring;
    }
  }

  lemma WriterConserves(link: Link, s: State)
    requires Invariant(link, s) && WriterEnabled(link, s)
    ensures Conserved(WriterNext(link, s)) && FramesFit(link, WriterNext(link, s))
  {
    hide Concat;
    var t := WriterNext(link, s);
    assert t.frames == s.frames;
    assert t.ring + Unwritten(t.writer) == s.ring + Unwritten(s.writer);
    assert Concat(s.frames) + t.ring + Unwritten(t.writer) == Concat(s.frames) + (t.ring + Unwritten(t.writer));
  }

  lemma StepKeepsInvariant(link: Link, limit: nat, s: State, e: Event)
    requires Sane(link) && Invariant(link, s) && Enabled(link, limit, s, e)
    ensures Invariant(link, Next(link, limit, s, e))
  {
    hide TaskNext, WriterNext, TaskEnabled, WriterEnabled, Concat;
    if e == TaskStep {
      TaskKeepsMeasures(link, s);
      TaskConserves(link, s);
    } else if e == WriterStep {
      WriterKeepsMeasures(link, s);
      WriterConserves(link, s);
    }
  }

  lemma StepKeepsCover(link: Link, limit: nat, s: State, e: Event)
    requires Sane(link) && limit <= link.capacity
    requires MeasuresHold(link, s) && OutputFits(link, s) && Covered(link, s)
    requires Enabled(link, limit, s, e)
    ensures OutputFits(link, Next(link, limit, s, e)) && Covered(link, Next(link, limit, s, e))
  {
  }

  lemma RunKeepsInvariant(link: Link, limit: nat, s: State, run: seq<Event>, t: State)
    requires Sane(link) && Invariant(link, s) && Runs(link, limit, s, run, t)
    ensures Invariant(link, t)
    decreases |run|
  {
    hide Invariant, Enabled, Next;
    if run != [] {
      StepKeepsInvariant(link, limit, s, run[0]);
      RunKeepsInvariant(link, limit, Next(link, limit, s, run[0]), run[1..], t);
    }
  }

  lemma RunKeepsCover(link: Link, limit: nat, s: State, run: seq<Event>, t: State)
    requires Sane(link) && limit <= link.capacity && Runs(link, limit, s, run, t)
    requires Invariant(link, s) && OutputFits(link, s) && Covered(link, s)
    ensures OutputFits(link, t) && Covered(link, t)
    decreases |run|
  {
    hide Conserved, FramesFit, Enabled, Next, OutputFits, Covered;
    if run != [] {
      StepKeepsInvariant(link, limit, s, run[0]);
      StepKeepsCover(link, limit, s, run[0]);
      RunKeepsCover(link, limit, Next(link, limit, s, run[0]), run[1..], t);
    }
  }

  /** Nothing is lost, repeated or reordered, and every frame fits, for outputs of any size. */
  lemma BytesConserved(link: Link, limit: nat, s: State)
    requires Sane(link) && Reachable(link, limit, s)
    ensures Concat(s.frames) + s.ring + Unwritten(s.writer) == s.accepted
    ensures forall i :: 0 <= i < |s.frames| ==> 0 < |s.frames[i]| <= link.payload
    ensures |s.ring| <= link.capacity
  {
    var run :| Runs(link, limit, START, run, s);
    RunKeepsInvariant(link, limit, START, run, s);
  }

  /** No wakeup is lost, in any interleaving, exactly when every output fits in an empty ring. */
  ghost predicate NoLostWakeup(link: Link, limit: nat) {
    forall s :: Reachable(link, limit, s) ==> Covered(link, s)
  }

  /** An output that does not fit: the ring is filled, and nobody is told about it. */
  lemma OversizedOutputStalls(link: Link, limit: nat) returns (s: State)
    requires Sane(link) && limit > link.capacity
    ensures Reachable(link, limit, s) && !Covered(link, s)
  {
    var bytes := seq(link.capacity + 1, i => 0);
    var s1 := Next(link, limit, START, Output(bytes));
    var s2 := Next(link, limit, s1, WriterStep);
    s := Next(link, limit, s2, WriterStep);
    var run := Prepend(link, limit, s2, WriterStep, s, [], s);
    run := Prepend(link, limit, s1, WriterStep, s2, run, s);
    run := Prepend(link, limit, START, Output(bytes), s1, run, s);
  }

  lemma NoLostWakeupIffOutputsFit(link: Link, limit: nat)
    requires Sane(link)
    ensures NoLostWakeup(link, limit) <==> limit <= link.capacity
  {
    if limit <= link.capacity {
      forall s | Reachable(link, limit, s) ensures Covered(link, s) {
        var run :| Runs(link, limit, START, run, s);
        RunKeepsCover(link, limit, START, run, s);
      }
    } else {
      var s := OversizedOutputStalls(link, limit);
    }
  }

  /** With the driver's sizes, outputs of up to 32767 bytes are safe and longer ones are not. */
  lemma DriverLimit(size: nat, limit: nat)
    requires size > 0
    ensures NoLostWakeup(DriverLink(size), limit) <==> limit < 32 * 1024
  {
    NoLostWakeupIffOutputsFit(DriverLink(size), limit);
  }

  /** At rest: no actor has anything to do but wait for the others. */
  predicate Quiescent(link: Link, s: State) {
    && s.queue == [] && !s.armed && !s.firing
    && !TaskPending(s.task)
    && (s.writer == Idle || ((s.writer.Fill? || s.writer.Put?) && !WriterPending(link, s)))
  }

  predicate Delivered(s: State) {
    s.ring == [] && Unwritten(s.writer) == [] && Concat(s.frames) == s.accepted
  }

  /** Whenever the link comes to rest, everything output so far has been sent. */
  lemma RestMeansDelivered(link: Link, limit: nat, s: State)
    requires Sane(link) && limit <= link.capacity && Reachable(link, limit, s)
    requires Quiescent(link, s)
    ensures Delivered(s) && s.writer == Idle
  {
    var run :| Runs(link, limit, START, run, s);
    RunKeepsCover(link, limit, START, run, s);
    BytesConserved(link, limit, s);
  }

  // ----- Progress -----

  /** The SPI task is bound to wait for room in the queue, which only the SPI task empties. */
  predicate Deadlocked(link: Link, s: State) {
    && |s.queue| >= link.slots
    && s.task.TaskNotify?
    && (s.task.phase in {AskStop, Stop, Send} || (s.task.phase == Measure && |s.ring| >= link.payload))
  }

  /** The packet in hand, if there is one, fits now. */
  predicate HasRoom(link: Link, s: State) {
    s.held + InHand(s.task) < link.size
  }

  /** The next step of the actors themselves, without new output, interrupts, packets or gets. */
  function Own(link: Link, s: State): Event {
    if s.task.Transfer? then Exchange(0)
    else if s.task != Receive || s.queue != [] then TaskStep
    else if s.firing then Fire
    else if s.armed then Expire
    else WriterStep
  }

  function Unsent(s: State): nat {
    |s.ring| + |Unwritten(s.writer)|
  }

  function WriterWork(w: Writer): nat {
    match w
    case Idle => 0
    case Fill(_) => 10
    case Put(rest, space) => if space >= |rest| then 9 else 11
    case WriterNotify(p) => PhaseWork(p)
  }

  function PhaseWork(p: Phase): nat {
    match p
    case Peek => 6
    case Measure => 5
    case AskStop => 4
    case Stop => 3
    case Send => 2
    case AskStart => 2
    case Start => 1
  }

  function TaskWork(s: State): nat {
    match s.task
    case Receive => 0
    case Got(_) => 9
    case Load(_, _) => 8
    case Transfer(_) => if s.ring == [] then 8 else 30
    case TaskNotify(_, p, _) => if s.ring == [] then 1 + PhaseWork(p) else 20 + PhaseWork(p)
    case Handle(_) => 1
  }

  function LinkWork(s: State): nat {
    TaskWork(s) + 10 * |s.queue| + (if s.armed then 12 else 0) + (if s.firing then 11 else 0)
  }

  predicate Less(s: State, t: State) {
    || Unsent(s) < Unsent(t)
    || (Unsent(s) == Unsent(t) && WriterWork(s.writer) < WriterWork(t.writer))
    || (Unsent(s) == Unsent(t) && WriterWork(s.writer) == WriterWork(t.writer) && LinkWork(s) < LinkWork(t))
  }

  lemma OwnTaskStep(link: Link, s: State)
    requires Sane(link) && MeasuresHold(link, s) && !Deadlocked(link, s) && HasRoom(link, s)
    requires (s.task != Receive || s.queue != []) && !s.task.Transfer?
    ensures TaskEnabled(link, s)
    ensures Less(TaskNext(link, s), s) && !Deadlocked(link, TaskNext(link, s)) && HasRoom(link, TaskNext(link, s))
  {
  }

  lemma OwnWriterStep(link: Link, s: State)
    requires Sane(link) && MeasuresHold(link, s) && OutputFits(link, s) && Covered(link, s) && HasRoom(link, s)
    requires !Quiescent(link, s)
    requires s.task == Receive && s.queue == [] && !s.firing && !s.armed
    ensures WriterEnabled(link, s)
    ensures Less(WriterNext(link, s), s) && !Deadlocked(link, WriterNext(link, s)) && HasRoom(link, WriterNext(link, s))
  {
  }

  /** At rest, with the SPI task back at the queue. */
  predicate Settled(link: Link, s: State) {
    Quiescent(link, s) && s.task == Receive
  }

  lemma OwnStepProgresses(link: Link, limit: nat, s: State)
    requires Sane(link) && MeasuresHold(link, s) && OutputFits(link, s) && Covered(link, s)
    requires !Deadlocked(link, s) && HasRoom(link, s) && !Settled(link, s)
    ensures Enabled(link, limit, s, Own(link, s))
    ensures Less(Next(link, limit, s, Own(link, s)), s)
    ensures !Deadlocked(link, Next(link, limit, s, Own(link, s))) && HasRoom(link, Next(link, limit, s, Own(link, s)))
  {
    hide TaskEnabled, TaskNext, WriterEnabled, WriterNext;
    if Own(link, s) == TaskStep {
      OwnTaskStep(link, s);
    } else if Own(link, s) == WriterStep {
      OwnWriterStep(link, s);
    }
  }

  /** Left alone, the actors bring the link to rest, unless a packet waits for room. */
  lemma OwnStepsComeToRest(link: Link, limit: nat, s: State) returns (run: seq<Event>, t: State)
    requires Sane(link) && limit <= link.capacity
    requires Invariant(link, s) && OutputFits(link, s) && Covered(link, s)
    requires !Deadlocked(link, s) && HasRoom(link, s)
    ensures Runs(link, limit, s, run, t) && Settled(link, t)
    ensures forall e <- run :: !e.Output? && !e.Interrupt? && !e.Take? && (e.Exchange? ==> e.packet == 0)
    decreases Unsent(s), WriterWork(s.writer), LinkWork(s)
  {
    hide Conserved, FramesFit, Enabled, Next, OutputFits, Covered, Settled, Deadlocked, HasRoom;
    if Settled(link, s) {
      run, t := [], s;
    } else {
      var e := Own(link, s);
      OwnStepProgresses(link, limit, s);
      StepKeepsInvariant(link, limit, s, e);
      StepKeepsCover(link, limit, s, e);
      run, t := OwnStepsComeToRest(link, limit, Next(link, limit, s, e));
      run := Prepend(link, limit, s, e, Next(link, limit, s, e), run, t);
    }
  }

  lemma DeadlockStays(link: Link, limit: nat, s: State, run: seq<Event>, t: State)
    requires Sane(link) && Deadlocked(link, s) && s.ring != [] && Runs(link, limit, s, run, t)
    ensures Deadlocked(link, t) && t.ring != [] && t.frames == s.frames
    decreases |run|
  {
    hide TaskNext, WriterNext, WriterEnabled;
    if run != [] {
      if run[0] == TaskStep {
        TaskStaysDeadlocked(link, s);
      } else if run[0] == WriterStep {
        WriterKeepsQueueFull(link, s);
      }
      DeadlockStays(link, limit, Next(link, limit, s, run[0]), run[1..], t);
    }
  }

  lemma TaskStaysDeadlocked(link: Link, s: State)
    requires Deadlocked(link, s) && TaskEnabled(link, s)
    ensures var t := TaskNext(link, s);
            Deadlocked(link, t) && t.ring == s.ring && t.frames == s.frames
  {
  }

  lemma WriterKeepsQueueFull(link: Link, s: State)
    requires WriterEnabled(link, s)
    ensures var t := WriterNext(link, s);
            t.task == s.task && t.frames == s.frames && |t.ring| >= |s.ring| && |t.queue| >= |s.queue|
  {
  }

  lemma InterruptsFillQueue(link: Link, limit: nat, s: State) returns (run: seq<Event>, t: State)
    requires |s.queue| <= link.slots
    ensures Runs(link, limit, s, run, t)
    ensures |t.queue| == link.slots && t == s.(queue := t.queue)
    decreases link.slots - |s.queue|
  {
    if |s.queue| == link.slots {
      run, t := [], s;
    } else {
      run, t := InterruptsFillQueue(link, limit, Next(link, limit, s, Interrupt));
      assert ([Interrupt] + run)[1..] == run;
      run := [Interrupt] + run;
    }
  }

  /** A full frame is output while the SPI task is between looking at the queue and measuring the ring. */
  lemma DeadlockIsReachable(link: Link, limit: nat) returns (s: State)
    requires Sane(link) && link.payload <= limit && link.payload <= link.capacity
    ensures Reachable(link, limit, s) && Deadlocked(link, s)
  {
    var bytes := seq(link.payload, i => 0);
    var s4 := START.(task := TaskNotify(Read, Peek, 0));
    var s5 := START.(task := TaskNotify(Read, Measure, 0));
    var s6 := s5.(writer := Fill(bytes), accepted := bytes);
    var s7 := s6.(writer := Put(bytes, link.capacity));
    var s8 := s7.(writer := WriterNotify(Peek), ring := bytes);
    assert START.accepted + bytes == bytes && s7.ring + bytes == bytes;
    var run, t := InterruptsFillQueue(link, limit, s8);
    run := Prepend(link, limit, s7, WriterStep, s8, run, t);
    run := Prepend(link, limit, s6, WriterStep, s7, run, t);
    run := Prepend(link, limit, s5, Output(bytes), s6, run, t);
    run := Prepend(link, limit, s4, TaskStep, s5, run, t);
    run := FirstExchange(link, limit, 0, run, t);
    s := t;
  }

  /** The first request is answered with a packet, or without one. */
  lemma FirstExchange(link: Link, limit: nat, packet: nat, rest: seq<Event>, t: State) returns (run: seq<Event>)
    requires Sane(link) && packet <= link.size && packet <= link.payload
    requires Runs(link, limit, START.(task := TaskNotify(Read, Peek, packet)), rest, t)
    ensures Runs(link, limit, START, run, t)
  {
    var s1 := START.(queue := [Read]);
    var s2 := START.(task := Got(Read));
    var s3 := START.(task := Transfer(Read));
    run := Prepend(link, limit, s3, Exchange(packet), START.(task := TaskNotify(Read, Peek, packet)), rest, t);
    run := Prepend(link, limit, s2, TaskStep, s3, run, t);
    run := Prepend(link, limit, s1, TaskStep, s2, run, t);
    run := Prepend(link, limit, START, Interrupt, s1, run, t);
  }

  lemma Prepend(link: Link, limit: nat, s: State, e: Event, u: State, run: seq<Event>, t: State)
    returns (longer: seq<Event>)
    requires Enabled(link, limit, s, e) && Next(link, limit, s, e) == u && Runs(link, limit, u, run, t)
    ensures longer == [e] + run && Runs(link, limit, s, longer, t)
  {
    longer := [e] + run;
    assert longer[1..] == run;
  }

  ghost predicate CanDeliver(link: Link, limit: nat, s: State) {
    exists run, t :: Runs(link, limit, s, run, t) && Delivered(t)
  }

  lemma RunsCompose(link: Link, limit: nat, s: State, r: seq<Event>, t: State, r': seq<Event>, t': State)
    requires Runs(link, limit, s, r, t) && Runs(link, limit, t, r', t')
    ensures Runs(link, limit, s, r + r', t')
    decreases |r|
  {
    hide Enabled, Next;
    if r == [] {
      assert r + r' == r';
    } else {
      assert (r + r')[0] == r[0] && (r + r')[1..] == r[1..] + r';
      RunsCompose(link, limit, Next(link, limit, s, r[0]), r[1..], t, r', t');
    }
  }

  /** A packet of the ring's size is never stored, so the SPI task never reads the ring again. */
  lemma OversizedPacketStays(link: Link, limit: nat, s: State, run: seq<Event>, t: State)
    requires InHand(s.task) >= link.size > 0 && Runs(link, limit, s, run, t)
    ensures InHand(t.task) >= link.size && t.frames == s.frames && Unsent(t) >= Unsent(s)
    decreases |run|
  {
    hide TaskNext, TaskEnabled, WriterNext, WriterEnabled;
    if run != [] {
      if run[0] == TaskStep {
        TaskKeepsPacket(link, s);
      } else if run[0] == WriterStep {
        WriterKeepsUnsent(link, s);
      }
      OversizedPacketStays(link, limit, Next(link, limit, s, run[0]), run[1..], t);
    }
  }

  lemma TaskKeepsPacket(link: Link, s: State)
    requires InHand(s.task) >= link.size > 0 && TaskEnabled(link, s)
    ensures var t := TaskNext(link, s);
            InHand(t.task) >= link.size && t.frames == s.frames && Unsent(t) == Unsent(s)
  {
  }

  lemma WriterKeepsUnsent(link: Link, s: State)
    requires WriterEnabled(link, s)
    ensures var t := WriterNext(link, s);
            t.task == s.task && t.frames == s.frames && Unsent(t) == Unsent(s)
  {
  }

  /** The master answers a request with such a packet, and then something is output. */
  lemma OversizedPacketIsReachable(link: Link, limit: nat) returns (s: State)
    requires Sane(link) && link.size <= link.payload && limit > 0
    ensures Reachable(link, limit, s) && InHand(s.task) == link.size && !Delivered(s) && !Deadlocked(link, s)
  {
    var bytes: seq<Byte> := [0];
    var s4 := START.(task := TaskNotify(Read, Peek, link.size));
    s := s4.(writer := Fill(bytes), accepted := bytes);
    assert START.accepted + bytes == bytes;
    var run := Prepend(link, limit, s4, Output(bytes), s, [], s);
    run := FirstExchange(link, limit, link.size, run, s);
  }

  /**
    From every reachable state the accepted bytes can still all be sent, unless they have been,
    exactly if the SPI task is not heading for a full queue and the packet in its hands is shorter
    than the ring it goes to. Otherwise nothing is ever sent again.
   */
  lemma CanDeliverIffNotStuck(link: Link, limit: nat, s: State)
    requires Sane(link) && limit <= link.capacity && Reachable(link, limit, s)
    ensures CanDeliver(link, limit, s) <==> Delivered(s) || (!Deadlocked(link, s) && InHand(s.task) < link.size)
  {
    var run :| Runs(link, limit, START, run, s);
    RunKeepsInvariant(link, limit, START, run, s);
    RunKeepsCover(link, limit, START, run, s);
    if Delivered(s) {
      assert Runs(link, limit, s, [], s);
    } else if Deadlocked(link, s) {
      forall rest, t | Runs(link, limit, s, rest, t) ensures !Delivered(t) {
        DeadlockStays(link, limit, s, rest, t);
      }
    } else if InHand(s.task) >= link.size {
      forall rest, t | Runs(link, limit, s, rest, t) ensures !Delivered(t) {
        OversizedPacketStays(link, limit, s, rest, t);
      }
    } else {
      DeliversOnceRead(link, limit, s, run);
    }
  }

  /** Once the reader has taken what is held, the actors alone deliver everything. */
  lemma DeliversOnceRead(link: Link, limit: nat, s: State, before: seq<Event>)
    requires Sane(link) && limit <= link.capacity && Runs(link, limit, START, before, s)
    requires Invariant(link, s) && OutputFits(link, s) && Covered(link, s)
    requires !Deadlocked(link, s) && InHand(s.task) < link.size
    ensures CanDeliver(link, limit, s)
  {
    var u := Next(link, limit, s, Take(s.held));
    StepKeepsInvariant(link, limit, s, Take(s.held));
    StepKeepsCover(link, limit, s, Take(s.held));
    var run, t := OwnStepsComeToRest(link, limit, u);
    run := Prepend(link, limit, s, Take(s.held), u, run, t);
    RunsCompose(link, limit, START, before, s, run, t);
    RestMeansDelivered(link, limit, t);
  }

  // ----- Frames are as full as they can be -----

  /** The SPI task has a request, and what was in the ring then is still at its front; or it has measured
      a frame that is full or takes all of that. */
  predicate Sending(link: Link, s: State, front: seq<Byte>) {
    && front <= s.ring && front != []
    && match s.task
       case Got(_) => true
       case Load(_, n) => n <= |s.ring| && (n == link.payload || n >= |front|)
       case _ => false
  }

  lemma SendingStep(link: Link, limit: nat, s: State, e: Event, front: seq<Byte>)
    requires Sending(link, s, front) && Enabled(link, limit, s, e)
    ensures var t := Next(link, limit, s, e);
            if s.task.Load? && e == TaskStep then
              && |t.frames| == |s.frames| + 1 && t.frames[..|s.frames|] == s.frames
              && (|t.frames[|s.frames|]| == link.payload || front <= t.frames[|s.frames|])
            else t.frames == s.frames && Sending(link, t, front)
  {
    hide PhaseStep;
    if e == WriterStep { WriterKeepsFront(link, s, front); }
  }

  lemma WriterKeepsFront(link: Link, s: State, front: seq<Byte>)
    requires WriterEnabled(link, s) && front <= s.ring
    ensures var t := WriterNext(link, s);
            front <= t.ring && s.ring <= t.ring && t.task == s.task && t.frames == s.frames
  {
  }

  lemma FramesGrow(link: Link, limit: nat, s: State, e: Event)
    requires Enabled(link, limit, s, e)
    ensures s.frames <= Next(link, limit, s, e).frames
  {
  }

  lemma {:induction false} FramesStay(link: Link, limit: nat, s: State, run: seq<Event>, t: State)
    requires Runs(link, limit, s, run, t)
    ensures s.frames <= t.frames
    decreases |run|
  {
    hide Enabled, Next;
    if run != [] {
      FramesGrow(link, limit, s, run[0]);
      FramesStay(link, limit, Next(link, limit, s, run[0]), run[1..], t);
    }
  }

  /** In every run, the next frame after the SPI task took a request is full, or takes all that was in
      the ring then. */
  lemma {:induction false} NextFrameIsFull(link: Link, limit: nat, s: State, front: seq<Byte>, run: seq<Event>,
                                           t: State)
    requires Sending(link, s, front) && Runs(link, limit, s, run, t) && |t.frames| > |s.frames|
    ensures var f := t.frames[|s.frames|];
            |f| == link.payload || front <= f
    decreases |run|
  {
    hide Sending, Enabled, Next;
    if run != [] {
      var u := Next(link, limit, s, run[0]);
      SendingStep(link, limit, s, run[0], front);
      if s.task.Load? && run[0] == TaskStep {
        FramesStay(link, limit, u, run[1..], t);
      } else {
        NextFrameIsFull(link, limit, u, front, run[1..], t);
      }
    }
  }

  // ----- A full frame does not wait for the timer -----

  /** This phase of a notification will find a full frame and queue a request for it. */
  predicate Queues(p: Phase) {
    p != AskStart && p != Start
  }

  /** A full frame in the ring has a request, or someone who is about to queue one, or belongs to an
      output that is still being written. */
  predicate FullFrameServed(link: Link, s: State) {
    |s.ring| >= link.payload ==>
      || s.queue != []
      || s.task.Got? || s.task.Load? || s.task.Transfer? || (s.task.TaskNotify? && Queues(s.task.phase))
      || s.writer.Fill? || s.writer.Put? || (s.writer.WriterNotify? && Queues(s.writer.phase))
  }

  lemma StepServesFullFrames(link: Link, limit: nat, s: State, e: Event)
    requires Sane(link) && FullFrameServed(link, s) && Enabled(link, limit, s, e)
    ensures FullFrameServed(link, Next(link, limit, s, e))
  {
  }

  /** In every interleaving, a full frame that has been written never waits for the timer. */
  lemma FullFramesAreServed(link: Link, limit: nat, s: State)
    requires Sane(link) && Reachable(link, limit, s)
    ensures FullFrameServed(link, s)
  {
    var run :| Runs(link, limit, START, run, s);
    RunServesFullFrames(link, limit, START, run, s);
  }

  lemma {:induction false} RunServesFullFrames(link: Link, limit: nat, s: State, run: seq<Event>, t: State)
    requires Sane(link) && FullFrameServed(link, s) && Runs(link, limit, s, run, t)
    ensures FullFrameServed(link, t)
    decreases |run|
  {
    hide Enabled, Next, FullFrameServed;
    if run != [] {
      StepServesFullFrames(link, limit, s, run[0]);
      RunServesFullFrames(link, limit, Next(link, limit, s, run[0]), run[1..], t);
    }
  }
}
