/**
  Transparent-transmission mode over SPI, from the start of a session until its end: the SPI task
  stores packets in a ring or counts stop characters, the command thread takes bytes out of the
  ring, and a one-shot timer started after three lone stop characters stops the session. The
  statements of the three threads interleave freely; ring, semaphore and timer calls are atomic.
 */
module TtMode {
  import opened Bytes

  /** The size of the ring, which holds one byte less, and the longest get. */
  datatype Session = Session(size: nat, longest: nat)

  ghost predicate Sane(c: Session) {
    c.size > 0 && c.longest > 0
  }

  type Packet = seq<Byte>

  const STOP_CHAR: Byte := 0x3C

  predicate LoneStop(p: Packet) {
    p == [STOP_CHAR]
  }

  /** Setting the stop flag, clearing the counter and waking the reader, in that order. */
  datatype Signal = Quiet | Flag | Count | Wake

  datatype Rx =
    | Wait
    | Refuse(signal: Signal)
    | Classify(packet: Packet)
    | Clear(packet: Packet)
    | Poll(packet: Packet)
    | Store(packet: Packet)
    | Give
    | AskFlag
    | AskActive
    | Cancel
    | Reset
    | AskCount
    | AskIdle
    | Arm

  /** `need` bytes are still wanted and `got` were already taken. */
  datatype Reader =
    | Outside
    | Loop(need: nat, got: seq<Byte>)
    | AskEmpty(need: nat, got: seq<Byte>)
    | AskData(need: nat, got: seq<Byte>)
    | Sleep(need: nat, got: seq<Byte>)
    | AskStop(need: nat, got: seq<Byte>)
    | Size(need: nat, got: seq<Byte>)
    | Take(need: nat, got: seq<Byte>, count: nat)

  /** `want` is the length of the current get. `packets` and `returned` are history: what the SPI task
      received, and what the gets returned. */
  datatype State = State(
    ring: seq<Byte>,
    sema: nat,
    stop: bool,
    counter: nat,
    armed: bool,
    handler: Signal,
    rx: Rx,
    reader: Reader,
    want: nat,
    packets: seq<Packet>,
    returned: seq<seq<Byte>>)

  /** What the session before may have left behind: ending one resets neither the counter nor the
      timer, and does not take back the tokens of the semaphore. */
  datatype Origin = Origin(counter: nat, armed: bool, tokens: nat)

  function Start(o: Origin): State {
    State([], o.tokens, false, o.counter, o.armed, Quiet, Wait, Outside, 0, [], [])
  }

  datatype Event = Packet(packet: Packet) | RxStep | Get(len: nat) | ReadStep | Expire | HandlerStep

  // ----- Steps -----

  function SignalStep(s: State, g: Signal): (State, Signal) {
    match g
    case Flag => (s.(stop := true), Count)
    case Count => (s.(counter := 0), Wake)
    case Wake => (s.(sema := s.sema + 1), Quiet)
    case Quiet => (s, Quiet)
  }

  predicate RxEnabled(c: Session, s: State) {
    s.rx != Wait
  }

  /** A packet longer than the ring's size is refused; the counter is eight bits wide. */
  function RxNext(c: Session, s: State): State
    requires RxEnabled(c, s)
  {
    match s.rx
    case Refuse(g) => var (after, next) := SignalStep(s, g); after.(rx := if next == Quiet then Wait else Refuse(next))
    case Classify(p) =>
      if LoneStop(p) then s.(counter := (s.counter + 1) % 256, rx := AskFlag) else s.(rx := Clear(p))
    case Clear(p) => s.(counter := 0, rx := Poll(p))
    case Poll(p) => if |s.ring| + |p| < c.size then s.(rx := Store(p)) else s
    case Store(p) => s.(ring := s.ring + p, rx := Give)
    case Give => s.(sema := s.sema + 1, rx := AskFlag)
    case AskFlag => s.(rx := if s.stop then AskCount else AskActive)
    case AskActive => s.(rx := if s.armed then Cancel else AskCount)
    case Cancel => s.(armed := false, rx := Reset)
    case Reset => s.(counter := 0, rx := AskCount)
    case AskCount => s.(rx := if s.counter >= 3 then AskIdle else Wait)
    case AskIdle => s.(rx := if s.armed then Wait else Arm)
    case Arm => s.(armed := true, rx := Wait)
  }

  predicate ReadEnabled(s: State) {
    match s.reader
    case Outside => false
    case Sleep(_, _) => s.sema > 0
    case Take(need, _, n) => n <= |s.ring| && n <= need
    case _ => true
  }

  function ReadNext(s: State): State
    requires ReadEnabled(s)
  {
    match s.reader
    case Loop(need, got) =>
      if need == 0 then s.(reader := Outside, returned := s.returned + [got])
      else s.(reader := if s.stop then AskEmpty(need, got) else AskData(need, got))
    case AskEmpty(need, got) =>
      if s.ring == [] then s.(reader := Outside, returned := s.returned + [got])
      else s.(reader := AskData(need, got))
    case AskData(need, got) => s.(reader := if s.ring == [] then Sleep(need, got) else Size(need, got))
    case Sleep(need, got) => s.(sema := s.sema - 1, reader := AskStop(need, got))
    case AskStop(need, got) => s.(reader := if s.stop then Size(need, got) else AskData(need, got))
    case Size(need, got) =>
      if s.ring == [] then s.(reader := Loop(need, got))
      else s.(reader := Take(need, got, if |s.ring| > need then need else |s.ring|))
    case Take(need, got, n) => s.(ring := s.ring[n..], reader := Loop(need - n, got + s.ring[..n]))
  }

  function Clamped(c: Session, len: nat): nat {
    if len > c.longest then c.longest else len
  }

  predicate Enabled(c: Session, s: State, e: Event) {
    match e
    case Packet(_) => s.rx == Wait
    case RxStep => RxEnabled(c, s)
    case Get(_) => s.reader == Outside
    case ReadStep => ReadEnabled(s)
    case Expire => s.armed && s.handler == Quiet
    case HandlerStep => s.handler != Quiet
  }

  function Next(c: Session, s: State, e: Event): State
    requires Enabled(c, s, e)
  {
    match e
    case Packet(p) =>
      s.(packets := s.packets + [p], rx := if |p| > c.size then Refuse(Flag) else Classify(p))
    case RxStep => RxNext(c, s)
    case Get(len) => var n := Clamped(c, len); s.(want := n, reader := Loop(n, []))
    case ReadStep => ReadNext(s)
    case Expire => s.(armed := false, handler := Flag)
    case HandlerStep => var (after, next) := SignalStep(s, s.handler); after.(handler := next)
  }

  predicate Runs(c: Session, s: State, run: seq<Event>, t: State)
    decreases |run|
  {
    if run == [] then s == t
    else Enabled(c, s, run[0]) && Runs(c, Next(c, s, run[0]), run[1..], t)
  }

  /** Reachable in a session that starts with this counter, timer and semaphore. */
  ghost predicate Reachable(c: Session, o: Origin, s: State) {
    exists run :: Runs(c, Start(o), run, s)
  }

  // ----- The byte stream -----

  /** The bytes of the packets that belong to the stream: no lone stop character, none refused. */
  function Stream(c: Session, packets: seq<Packet>): seq<Byte> {
    if packets == [] then []
    else
      var p := packets[|packets| - 1];
      Stream(c, packets[..|packets| - 1]) + (if LoneStop(p) || |p| > c.size then [] else p)
  }

  lemma StreamAppend(c: Session, packets: seq<Packet>, p: Packet)
    ensures Stream(c, packets + [p]) == Stream(c, packets) + (if LoneStop(p) || |p| > c.size then [] else p)
  {
    assert (packets + [p])[..|packets|] == packets;
  }

  /** The packet in the SPI task's hands. */
  function Held(rx: Rx): seq<Byte> {
    match rx
    case Classify(p) => if LoneStop(p) then [] else p
    case Clear(p) => p
    case Poll(p) => p
    case Store(p) => p
    case _ => []
  }

  function Gotten(r: Reader): seq<Byte> {
    if r == Outside then [] else r.got
  }

  ghost predicate Conserved(c: Session, s: State) {
    Concat(s.returned) + Gotten(s.reader) + s.ring + Held(s.rx) == Stream(c, s.packets)
  }

  predicate MeasuresHold(c: Session, s: State) {
    && |s.ring| < c.size
    && (s.rx.Store? ==> |s.ring| + |s.rx.packet| < c.size)
    && (s.rx.Clear? || s.rx.Poll? || s.rx.Store? ==> !LoneStop(s.rx.packet))
    && (s.rx.Classify? ==> |s.rx.packet| <= c.size)
    && (s.rx.Refuse? ==> s.rx.signal != Quiet)
    && (s.reader.Take? ==> 0 < s.reader.count <= |s.ring| && s.reader.count <= s.reader.need)
    && (s.reader.AskEmpty? ==> s.stop)
    && (s.reader.Outside? || (|s.reader.got| + s.reader.need == s.want && (s.reader.Loop? || s.reader.need > 0)))
  }

  lemma RxKeepsMeasures(c: Session, s: State)
    requires MeasuresHold(c, s) && RxEnabled(c, s)
    ensures MeasuresHold(c, RxNext(c, s))
  {
  }

  lemma ReadKeepsMeasures(c: Session, s: State)
    requires MeasuresHold(c, s) && ReadEnabled(s)
    ensures MeasuresHold(c, ReadNext(s))
  {
  }

  lemma RxConserves(c: Session, s: State)
    requires MeasuresHold(c, s) && Conserved(c, s) && RxEnabled(c, s)
    ensures Conserved(c, RxNext(c, s))
  {
    hide Stream, Concat;
    var t := RxNext(c, s);
    assert t.packets == s.packets && t.returned == s.returned && t.reader == s.reader;
    assert t.ring + Held(t.rx) == s.ring + Held(s.rx);
    var front := Concat(s.returned) + Gotten(s.reader);
    assert front + s.ring + Held(s.rx) == front + (s.ring + Held(s.rx));
    assert front + t.ring + Held(t.rx) == front + (t.ring + Held(t.rx));
  }

  lemma ReadConserves(c: Session, s: State)
    requires MeasuresHold(c, s) && Conserved(c, s) && ReadEnabled(s)
    ensures Conserved(c, ReadNext(s))
  {
    hide Stream, Concat;
    var t := ReadNext(s);
    assert t.packets == s.packets && t.rx == s.rx;
    if t.reader == Outside {
      ConcatAppend(s.returned, s.reader.got);
    } else if s.reader.Take? {
      var n := s.reader.count;
      assert Concat(s.returned) + (s.reader.got + s.ring[..n]) + s.ring[n..]
          == Concat(s.returned) + s.reader.got + s.ring;
    } else {
      assert Gotten(t.reader) == Gotten(s.reader) && t.ring == s.ring;
    }
  }

  lemma StepKeepsStream(c: Session, s: State, e: Event)
    requires Sane(c) && MeasuresHold(c, s) && Conserved(c, s) && Enabled(c, s, e)
    ensures MeasuresHold(c, Next(c, s, e)) && Conserved(c, Next(c, s, e))
  {
    hide RxNext, ReadNext, ReadEnabled, Stream, Concat;
    match e
    case RxStep => RxKeepsMeasures(c, s); RxConserves(c, s);
    case ReadStep => ReadKeepsMeasures(c, s); ReadConserves(c, s);
    case Packet(p) => StreamAppend(c, s.packets, p);
    case _ =>
  }

  lemma RunKeepsStream(c: Session, s: State, run: seq<Event>, t: State)
    requires Sane(c) && MeasuresHold(c, s) && Conserved(c, s) && Runs(c, s, run, t)
    ensures MeasuresHold(c, t) && Conserved(c, t)
    decreases |run|
  {
    hide MeasuresHold, Conserved, Enabled, Next;
    if run != [] {
      StepKeepsStream(c, s, run[0]);
      RunKeepsStream(c, Next(c, s, run[0]), run[1..], t);
    }
  }

  /** Gets return the stream: in order, with nothing lost, repeated or added. */
  lemma StreamIsKept(c: Session, o: Origin, s: State)
    requires Sane(c) && Reachable(c, o, s)
    ensures Concat(s.returned) + Gotten(s.reader) + s.ring + Held(s.rx) == Stream(c, s.packets)
    ensures |s.ring| < c.size
  {
    var run :| Runs(c, Start(o), run, s);
    RunKeepsStream(c, Start(o), run, s);
  }

  /** A get that returns has all it wanted, or the session was stopped and the ring empty. */
  lemma ShortGetMeansStopped(c: Session, o: Origin, s: State)
    requires Sane(c) && Reachable(c, o, s)
    requires ReadEnabled(s) && ReadNext(s).reader == Outside
    ensures |s.reader.got| == s.want || (|s.reader.got| < s.want && s.stop && s.ring == [])
    ensures ReadNext(s).returned == s.returned + [s.reader.got]
  {
    var run :| Runs(c, Start(o), run, s);
    RunKeepsStream(c, Start(o), run, s);
  }

  // ----- Wakeups -----

  /** A thread that has yet to give the semaphore after setting the stop flag. */
  predicate SignalPending(s: State) {
    || (s.handler != Quiet && s.handler != Flag)
    || (s.rx.Refuse? && s.rx.signal != Flag)
  }

  /** What the reader may rely on when it goes to sleep, and already before. */
  predicate Woken(s: State) {
    && (s.reader.Sleep? && s.ring != [] ==> s.sema > 0 || s.rx == Give)
    && ((s.reader.Sleep? || (s.reader.AskData? && s.ring == [])) && s.stop ==> s.sema > 0 || SignalPending(s))
  }

  lemma StepKeepsWoken(c: Session, s: State, e: Event)
    requires MeasuresHold(c, s) && Woken(s) && Enabled(c, s, e)
    ensures Woken(Next(c, s, e))
  {
  }

  lemma RunKeepsWoken(c: Session, s: State, run: seq<Event>, t: State)
    requires Sane(c) && MeasuresHold(c, s) && Conserved(c, s) && Woken(s) && Runs(c, s, run, t)
    ensures Woken(t)
    decreases |run|
  {
    hide MeasuresHold, Conserved, Woken, Enabled, Next;
    if run != [] {
      StepKeepsStream(c, s, run[0]);
      StepKeepsWoken(c, s, run[0]);
      RunKeepsWoken(c, Next(c, s, run[0]), run[1..], t);
    }
  }

  /** A get that sleeps on has nothing to take and no stop to see, or is about to be woken. */
  lemma SleepingGetIsWoken(c: Session, o: Origin, s: State)
    requires Sane(c) && Reachable(c, o, s)
    requires s.reader.Sleep? && s.sema == 0
    ensures s.ring != [] ==> s.rx == Give
    ensures s.stop ==> SignalPending(s)
  {
    var run :| Runs(c, Start(o), run, s);
    RunKeepsWoken(c, Start(o), run, s);
  }

  // ----- The stop characters -----

  /** The session has not been stopped and the timer's handler has not begun to. */
  predicate Live(s: State) {
    !s.stop && s.handler == Quiet
  }

  /** The last `n` packets were lone stop characters. */
  predicate StopTail(packets: seq<Packet>, n: nat) {
    n <= |packets| && forall i :: |packets| - n <= i < |packets| ==> LoneStop(packets[i])
  }

  /** A session may start at 255 too: the first stop character then wraps the counter to 0. */
  predicate BetweenPackets(s: State, packets: seq<Packet>) {
    || ((s.armed <==> s.counter == 3) && s.counter <= 3 && StopTail(packets, s.counter))
    || (packets == [] && s.counter == 255 && !s.armed)
  }

  /** The counter and the timer, at each point of the SPI task. */
  predicate CountsStops(s: State) {
    match s.rx
    case Wait => BetweenPackets(s, s.packets)
    case Refuse(g) => g == Flag
    case Classify(p) =>
      && s.packets != [] && s.packets[|s.packets| - 1] == p
      && BetweenPackets(s, s.packets[..|s.packets| - 1])
    case Clear(_) => true
    case Cancel => true
    case Reset => !s.armed
    case AskCount => !s.armed && s.counter <= 3 && StopTail(s.packets, s.counter)
    case AskIdle => !s.armed && s.counter == 3 && StopTail(s.packets, 3)
    case Arm => !s.armed && s.counter == 3 && StopTail(s.packets, 3)
    case AskFlag => AfterPacket(s)
    case AskActive => AfterPacket(s)
    case _ => s.counter == 0
  }

  predicate AfterPacket(s: State) {
    s.counter == 0 || ((s.armed <==> s.counter == 4) && s.counter <= 4 && StopTail(s.packets, s.counter))
  }

  predicate StopsCounted(s: State) {
    && (Live(s) ==> CountsStops(s))
    && (s.handler in {Count, Wake} ==> s.stop)
  }

  lemma RxCountsStops(c: Session, s: State)
    requires StopsCounted(s) && RxEnabled(c, s)
    ensures StopsCounted(RxNext(c, s))
  {
  }

  lemma ReadLeavesStops(s: State)
    requires ReadEnabled(s)
    ensures var t := ReadNext(s);
            && t.stop == s.stop && t.counter == s.counter && t.armed == s.armed
            && t.handler == s.handler && t.rx == s.rx && t.packets == s.packets
  {
  }

  lemma StepCountsStops(c: Session, s: State, e: Event)
    requires StopsCounted(s) && Enabled(c, s, e)
    ensures StopsCounted(Next(c, s, e))
  {
    hide RxNext, ReadNext, ReadEnabled;
    match e
    case RxStep => RxCountsStops(c, s);
    case ReadStep => ReadLeavesStops(s);
    case Packet(p) => assert (s.packets + [p])[..|s.packets|] == s.packets;
    case _ =>
  }

  lemma RunCountsStops(c: Session, s: State, run: seq<Event>, t: State)
    requires StopsCounted(s) && Runs(c, s, run, t)
    ensures StopsCounted(t)
    decreases |run|
  {
    hide StopsCounted, Enabled, Next;
    if run != [] {
      StepCountsStops(c, s, run[0]);
      RunCountsStops(c, Next(c, s, run[0]), run[1..], t);
    }
  }

  /** Counters that count from 0: the first stop character takes 255 there too. */
  predicate Clean(o: Origin) {
    !o.armed && (o.counter == 0 || o.counter == 255)
  }

  /**
    Until the session stops, between packets the stop timer is armed exactly when the counter
    is 3, and then the last three packets of this session were each a lone stop character.
   */
  ghost predicate ArmedByThree(c: Session, o: Origin) {
    forall s :: Reachable(c, o, s) && Live(s) && s.rx == Wait ==>
      (s.armed <==> s.counter == 3) && (s.armed ==> StopTail(s.packets, 3))
  }

  predicate ThreeStopsAt(packets: seq<Packet>, i: int) {
    0 <= i && i + 3 <= |packets| && LoneStop(packets[i]) && LoneStop(packets[i + 1]) && LoneStop(packets[i + 2])
  }

  /** The master asked for a stop, or sent a packet that ends a session by its size. */
  ghost predicate StopAskedFor(c: Session, packets: seq<Packet>) {
    (exists i :: ThreeStopsAt(packets, i)) || exists p <- packets :: |p| > c.size
  }

  /** A session is only ever stopped by what the master sent in it. */
  ghost predicate StopsWhenAsked(c: Session, o: Origin) {
    forall s :: Reachable(c, o, s) && s.stop ==> StopAskedFor(c, s.packets)
  }

  lemma Prepend(c: Session, s: State, e: Event, u: State, run: seq<Event>, t: State)
    returns (longer: seq<Event>)
    requires Enabled(c, s, e) && Next(c, s, e) == u && Runs(c, u, run, t)
    ensures Runs(c, s, longer, t)
  {
    longer := [e] + run;
    assert longer[1..] == run;
  }

  /** One more lone stop character while the timer is idle. */
  lemma OneMoreStop(c: Session, s: State, t: State, rest: seq<Event>, end: State) returns (run: seq<Event>)
    requires Sane(c) && s.rx == Wait && !s.stop && !s.armed
    requires var n := (s.counter + 1) % 256;
             t == s.(packets := s.packets + [[STOP_CHAR]], counter := n, armed := n >= 3)
    requires Runs(c, t, rest, end)
    ensures Runs(c, s, run, end)
  {
    hide Next, Enabled, Runs;
    var stop := [STOP_CHAR];
    var s1 := s.(packets := s.packets + [stop], rx := Classify(stop));
    var s2 := s1.(counter := (s.counter + 1) % 256, rx := AskFlag);
    run := CountReached(c, s2.(rx := AskCount), t, rest, end);
    run := RxPrepend(c, s2.(rx := AskActive), s2.(rx := AskCount), run, end);
    run := RxPrepend(c, s2, s2.(rx := AskActive), run, end);
    run := RxPrepend(c, s1, s2, run, end);
    run := PacketPrepend(c, s, stop, s1, run, end);
  }

  lemma CountReached(c: Session, s: State, t: State, rest: seq<Event>, end: State) returns (run: seq<Event>)
    requires s.rx == AskCount && !s.armed && t == s.(rx := Wait, armed := s.counter >= 3)
    requires Runs(c, t, rest, end)
    ensures Runs(c, s, run, end)
  {
    hide Next, Enabled, Runs;
    if s.counter >= 3 {
      run := RxPrepend(c, s.(rx := Arm), t, rest, end);
      run := RxPrepend(c, s.(rx := AskIdle), s.(rx := Arm), run, end);
      run := RxPrepend(c, s, s.(rx := AskIdle), run, end);
    } else {
      run := RxPrepend(c, s, t, rest, end);
    }
  }

  lemma RxPrepend(c: Session, s: State, u: State, run: seq<Event>, t: State) returns (longer: seq<Event>)
    requires s.rx != Wait && RxNext(c, s) == u && Runs(c, u, run, t)
    ensures Runs(c, s, longer, t)
  {
    longer := Prepend(c, s, RxStep, u, run, t);
  }

  lemma PacketPrepend(c: Session, s: State, p: Packet, u: State, run: seq<Event>, t: State)
    returns (longer: seq<Event>)
    requires s.rx == Wait && |p| <= c.size && u == s.(packets := s.packets + [p], rx := Classify(p))
    requires Runs(c, u, run, t)
    ensures Runs(c, s, longer, t)
  {
    longer := Prepend(c, s, Event.Packet(p), u, run, t);
  }

  /** A session that starts with an armed timer is stopped when it expires. */
  lemma ArmedIsStopped(c: Session, s: State, t: State) returns (run: seq<Event>)
    requires s.armed && s.handler == Quiet
    requires t == s.(armed := false, handler := Count, stop := true)
    ensures Runs(c, s, run, t)
  {
    var u := s.(armed := false, handler := Flag);
    run := Prepend(c, u, HandlerStep, t, [], t);
    run := Prepend(c, s, Expire, u, run, t);
  }

  /** A session that starts with a counter or timer left over can be stopped by fewer than three
      stop characters, by two, one or none at all. */
  lemma StaleStartStopsEarly(c: Session, o: Origin) returns (t: State)
    requires Sane(c) && o.counter < 256 && !Clean(o)
    ensures Reachable(c, o, t) && t.stop && |t.packets| < 3 && forall p <- t.packets :: LoneStop(p)
  {
    var s, stop := Start(o), [STOP_CHAR];
    if o.armed {
      t := s.(armed := false, handler := Count, stop := true);
      var run := ArmedIsStopped(c, s, t);
    } else {
      var u := s.(packets := s.packets + [stop], counter := o.counter + 1, armed := o.counter + 1 >= 3);
      if o.counter == 1 {
        var w := u.(packets := u.packets + [stop], counter := 3, armed := true);
        t := w.(armed := false, handler := Count, stop := true);
        var run := ArmedIsStopped(c, w, t);
        run := OneMoreStop(c, u, w, run, t);
        run := OneMoreStop(c, s, u, run, t);
      } else {
        t := u.(armed := false, handler := Count, stop := true);
        var run := ArmedIsStopped(c, u, t);
        run := OneMoreStop(c, s, u, run, t);
      }
    }
  }

  /** Ending a session resets neither counter nor timer, so a clean session can leave such a start. */
  lemma CounterOutlivesSession(c: Session, tokens: nat) returns (s: State)
    requires Sane(c)
    ensures Reachable(c, Origin(0, false, tokens), s) && s.rx == Wait && s.reader == Outside
    ensures !StopsWhenAsked(c, Origin(s.counter, s.armed, s.sema))
  {
    var start := Start(Origin(0, false, tokens));
    s := start.(packets := start.packets + [[STOP_CHAR]], counter := 1);
    var run := OneMoreStop(c, start, s, [], s);
    StopsWhenAskedIff(c, Origin(s.counter, s.armed, s.sema));
  }

  /** An armed timer, a running handler, a refused packet and a stop all have their cause. */
  ghost predicate StopsHaveCause(c: Session, s: State) {
    s.armed || s.handler != Quiet || s.stop || s.rx.Refuse? ==> StopAskedFor(c, s.packets)
  }

  lemma StillAskedFor(c: Session, packets: seq<Packet>, p: Packet)
    requires StopAskedFor(c, packets)
    ensures StopAskedFor(c, packets + [p])
  {
    if i :| ThreeStopsAt(packets, i) {
      assert ThreeStopsAt(packets + [p], i);
    } else {
      var q :| q in packets && |q| > c.size;
      assert q in packets + [p];
    }
  }

  lemma StepHasCause(c: Session, s: State, e: Event)
    requires StopsCounted(s) && StopsHaveCause(c, s) && Enabled(c, s, e)
    ensures StopsHaveCause(c, Next(c, s, e))
  {
    hide ReadNext, ReadEnabled, StopAskedFor, StopsCounted;
    match e
    case ReadStep => ReadLeavesStops(s);
    case Packet(p) =>
      if StopAskedFor(c, s.packets) {
        StillAskedFor(c, s.packets, p);
      } else if |p| > c.size {
        RefusedIsAskedFor(c, s.packets, p);
      }
    case RxStep => if s.rx == Arm { ArmingIsAskedFor(c, s); }
    case _ =>
  }

  lemma RefusedIsAskedFor(c: Session, packets: seq<Packet>, p: Packet)
    requires |p| > c.size
    ensures StopAskedFor(c, packets + [p])
  {
    assert p in packets + [p];
  }

  lemma ArmingIsAskedFor(c: Session, s: State)
    requires s.rx == Arm && StopsCounted(s) && StopsHaveCause(c, s)
    ensures StopAskedFor(c, s.packets)
  {
    if Live(s) {
      assert ThreeStopsAt(s.packets, |s.packets| - 3);
    }
  }

  lemma RunHasCause(c: Session, s: State, run: seq<Event>, t: State)
    requires StopsCounted(s) && StopsHaveCause(c, s) && Runs(c, s, run, t)
    ensures StopsHaveCause(c, t)
    decreases |run|
  {
    hide StopsCounted, StopsHaveCause, Enabled, Next;
    if run != [] {
      StepCountsStops(c, s, run[0]);
      StepHasCause(c, s, run[0]);
      RunHasCause(c, Next(c, s, run[0]), run[1..], t);
    }
  }

  /** The exact starting states from which a stop always takes three stop characters in a row, or a
      packet that does not fit. */
  lemma StopsWhenAskedIff(c: Session, o: Origin)
    requires Sane(c) && o.counter < 256
    ensures StopsWhenAsked(c, o) <==> Clean(o)
  {
    if Clean(o) {
      forall s | Reachable(c, o, s) && s.stop ensures StopAskedFor(c, s.packets) {
        var run :| Runs(c, Start(o), run, s);
        RunHasCause(c, Start(o), run, s);
      }
    } else {
      var t := StaleStartStopsEarly(c, o);
      assert forall p <- t.packets :: |p| <= c.size;
    }
  }

  /** The same starting states are those from which the timer follows the counter. */
  lemma ArmedByThreeIff(c: Session, o: Origin)
    requires Sane(c) && o.counter < 256
    ensures ArmedByThree(c, o) <==> Clean(o)
  {
    if Clean(o) {
      forall s | Reachable(c, o, s) && Live(s) && s.rx == Wait
        ensures (s.armed <==> s.counter == 3) && (s.armed ==> StopTail(s.packets, 3))
      {
        var run :| Runs(c, Start(o), run, s);
        RunCountsStops(c, Start(o), run, s);
      }
    } else {
      var s := TimerAgainstCounter(c, o);
    }
  }

  /** From every other start the timer is armed, or not, against the counter or too early. */
  lemma TimerAgainstCounter(c: Session, o: Origin) returns (t: State)
    requires Sane(c) && o.counter < 256 && !Clean(o)
    ensures Reachable(c, o, t) && Live(t) && t.rx == Wait
    ensures (t.armed <==> t.counter != 3) || (t.armed && |t.packets| < 3)
  {
    var s, stop := Start(o), [STOP_CHAR];
    if o.armed || o.counter == 3 {
      t := s;
      assert Runs(c, s, [], s);
    } else {
      var u := s.(packets := s.packets + [stop], counter := o.counter + 1, armed := o.counter + 1 >= 3);
      if o.counter == 1 {
        t := u.(packets := u.packets + [stop], counter := 3, armed := true);
        var run := OneMoreStop(c, u, t, [], t);
        run := OneMoreStop(c, s, u, run, t);
      } else {
        t := u;
        var run := OneMoreStop(c, s, t, [], t);
      }
    }
  }

  // ----- Packets the ring can hold -----

  function ReaderWork(s: State): nat {
    match s.reader
    case Loop(need, _) => if need == 0 then 11 else 9
    case Outside => 10
    case Sleep(_, _) => 8
    case AskStop(_, _) => 7
    case AskEmpty(_, _) => 7
    case AskData(_, _) => 6
    case Size(_, _) => 5
    case Take(_, _, _) => 4
  }

  /** While the SPI task polls for room, the reader can always take another byte. */
  lemma ReaderMakesRoom(c: Session, s: State, e: Event)
    requires Sane(c) && MeasuresHold(c, s) && Woken(s) && s.rx.Poll? && s.ring != []
    requires e == if s.reader == Outside then Get(1) else ReadStep
    ensures Enabled(c, s, e) && Next(c, s, e).rx == s.rx
    ensures |Next(c, s, e).ring| < |s.ring|
            || (|Next(c, s, e).ring| == |s.ring| && ReaderWork(Next(c, s, e)) < ReaderWork(s))
  {
  }

  lemma FittingPacketIsStored(c: Session, s: State) returns (run: seq<Event>, t: State)
    requires Sane(c) && MeasuresHold(c, s) && Conserved(c, s) && Woken(s)
    requires s.rx.Poll? && |s.rx.packet| < c.size
    ensures Runs(c, s, run, t) && t.rx == Store(s.rx.packet)
    decreases |s.ring|, ReaderWork(s)
  {
    hide ReadNext, ReadEnabled, Conserved, Woken;
    if |s.ring| + |s.rx.packet| < c.size {
      t := Next(c, s, RxStep);
      run := Prepend(c, s, RxStep, t, [], t);
    } else {
      var e := if s.reader == Outside then Get(1) else ReadStep;
      ReaderMakesRoom(c, s, e);
      StepKeepsStream(c, s, e);
      StepKeepsWoken(c, s, e);
      run, t := FittingPacketIsStored(c, Next(c, s, e));
      run := Prepend(c, s, e, Next(c, s, e), run, t);
    }
  }

  lemma OversizedPacketPollsForever(c: Session, s: State, run: seq<Event>, t: State)
    requires s.rx.Poll? && |s.rx.packet| >= c.size && Runs(c, s, run, t)
    ensures t.rx == s.rx
    decreases |run|
  {
    hide ReadNext, ReadEnabled;
    if run != [] {
      if run[0] == ReadStep {
        ReadLeavesStops(s);
      }
      OversizedPacketPollsForever(c, Next(c, s, run[0]), run[1..], t);
    }
  }

  /**
    A packet that passed the length test can still be stored exactly when it is shorter than the
    ring's size; one of exactly that size keeps the SPI task polling for the rest of the session.
   */
  lemma StoredIffShorterThanRing(c: Session, o: Origin, s: State)
    requires Sane(c) && Reachable(c, o, s) && s.rx.Poll?
    ensures (exists run, t :: Runs(c, s, run, t) && t.rx == Store(s.rx.packet)) <==> |s.rx.packet| < c.size
  {
    var run :| Runs(c, Start(o), run, s);
    RunKeepsStream(c, Start(o), run, s);
    RunKeepsWoken(c, Start(o), run, s);
    if |s.rx.packet| < c.size {
      var rest, t := FittingPacketIsStored(c, s);
    } else {
      forall rest, t | Runs(c, s, rest, t) ensures t.rx == s.rx {
        OversizedPacketPollsForever(c, s, rest, t);
      }
    }
  }
}
